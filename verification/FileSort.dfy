/**
 The directory lister's sort: straight insertion on an array whose slot 0 is both the record being
 inserted and the sentinel that stops the inner loop, under a hand-written string comparison.
 Names are sequences of non-zero character codes followed by an implied 0, so nothing depends on
 whether char is signed.
 */
module FileSort {
  type Name = s: seq<int> | forall i :: 0 <= i < |s| ==> s[i] != 0

  /** A file's record; `info` stands for the stat fields carried along. */
  datatype Record = Record(name: Name, info: int)

  /** The character at position i of the NUL-terminated string. */
  function At(s: Name, i: nat): int
    requires i <= |s|
  {
    if i < |s| then s[i] else 0
  }

  // ---- compare ------------------------------------------------------------------------

  /** The outcome of comparing from position i on. */
  function OrderFrom(s: Name, t: Name, i: nat): (r: int)
    requires i <= |s| && i <= |t|
    ensures r in {-1, 0, 1}
    decreases |s| - i
  {
    if At(s, i) < At(t, i) then -1
    else if At(s, i) > At(t, i) then 1
    else if i == |s| then 0
    else OrderFrom(s, t, i + 1)
  }

  /** -1, 0 or 1 as s comes before, equals or comes after t. */
  function Order(s: Name, t: Name): (r: int)
    ensures r in {-1, 0, 1}
  {
    OrderFrom(s, t, 0)
  }

  /** The names agree below k and differ at k, where s is smaller: by its character; or it ends there, and
      the other name's character is positive; or the other ends there, and its own is negative. */
  predicate SmallerAt(s: Name, t: Name, k: nat) {
    && k <= |s| && k <= |t| && (forall j :: 0 <= j < k ==> s[j] == t[j])
    && (|| (k < |s| && k < |t| && s[k] < t[k])
        || (k == |s| < |t| && t[k] > 0)
        || (k == |t| < |s| && s[k] < 0))
  }

  /** s comes before t: it is smaller where the two first differ. */
  ghost predicate Before(s: Name, t: Name) { exists k :: SmallerAt(s, t, k) }

  lemma {:induction false} OrderFromMeaning(s: Name, t: Name, i: nat)
    requires i <= |s| && i <= |t| && forall j :: 0 <= j < i ==> s[j] == t[j]
    ensures OrderFrom(s, t, i) == 0 <==> s == t
    ensures OrderFrom(s, t, i) == -1 <==> Before(s, t)
    decreases |s| - i
  {
    if At(s, i) == At(t, i) && i < |s| {
      OrderFromMeaning(s, t, i + 1);
    } else if At(s, i) < At(t, i) {
      assert SmallerAt(s, t, i);
    }
  }

  lemma {:induction false} OrderFromFlips(s: Name, t: Name, i: nat)
    requires i <= |s| && i <= |t|
    ensures OrderFrom(s, t, i) == -OrderFrom(t, s, i)
    decreases |s| - i
  {
    if At(s, i) == At(t, i) && i < |s| {
      OrderFromFlips(s, t, i + 1);
    }
  }

  /** Equal names compare as 0, and otherwise the first difference decides. */
  lemma OrderMeaning(s: Name, t: Name)
    ensures Order(s, t) == 0 <==> s == t
    ensures Order(s, t) == -1 <==> Before(s, t)
    ensures Order(s, t) == 1 <==> Before(t, s)
  {
    OrderFromMeaning(s, t, 0);
    OrderFromFlips(s, t, 0);
    OrderFromMeaning(t, s, 0);
  }

  lemma {:induction false} OrderFromTransitive(s: Name, t: Name, u: Name, i: nat)
    requires i <= |s| && i <= |t| && i <= |u|
    requires OrderFrom(s, t, i) <= 0 && OrderFrom(t, u, i) <= 0
    ensures OrderFrom(s, u, i) <= 0
    decreases |s| - i
  {
    if At(s, i) == At(t, i) == At(u, i) && i < |s| {
      OrderFromTransitive(s, t, u, i + 1);
    }
  }

  /** compare is a total order on names. */
  lemma OrderIsTotal(s: Name, t: Name, u: Name)
    ensures Order(s, t) == -Order(t, s)
    ensures Order(s, t) == 0 <==> s == t
    ensures Order(s, t) <= 0 && Order(t, u) <= 0 ==> Order(s, u) <= 0
  {
    OrderFromFlips(s, t, 0);
    OrderMeaning(s, t);
    if Order(s, t) <= 0 && Order(t, u) <= 0 {
      OrderFromTransitive(s, t, u, 0);
    }
  }

  method Compare(s1: Name, s2: Name) returns (r: int)
    ensures r == Order(s1, s2)
  {
    var i := 0;
    while At(s1, i) == At(s2, i) && At(s1, i) != 0
      invariant i <= |s1| && i <= |s2| && OrderFrom(s1, s2, i) == Order(s1, s2)
      decreases |s1| - i
    {
      i := i + 1;
    }
    if At(s1, i) == At(s2, i) {
      return 0;
    }
    if At(s1, i) < At(s2, i) {
      return -1;
    }
    return 1;
  }

  // ---- what sorting means -------------------------------------------------------------

  /** No record's name comes before that of an earlier record. */
  ghost predicate Sorted(s: seq<Record>) {
    forall i, j :: 0 <= i < j < |s| ==> !Before(s[j].name, s[i].name)
  }

  /** The same, by what compare returns. */
  predicate InOrder(s: seq<Record>) {
    forall i, j :: 0 <= i < j < |s| ==> Order(s[i].name, s[j].name) <= 0
  }

  lemma SortedIsInOrder(s: seq<Record>)
    ensures Sorted(s) <==> InOrder(s)
  {
    forall i, j | 0 <= i < j < |s| ensures Before(s[j].name, s[i].name) <==> Order(s[i].name, s[j].name) > 0 {
      OrderMeaning(s[j].name, s[i].name);
      OrderIsTotal(s[i].name, s[j].name, s[i].name);
    }
  }

  /** The records of one name among the first k, in order. */
  function WithName(s: seq<Record>, k: nat, n: Name): seq<Record>
    requires k <= |s|
  {
    if k == 0 then []
    else WithName(s, k - 1, n) + if s[k - 1].name == n then [s[k - 1]] else []
  }

  ghost predicate SameByName(s: seq<Record>, t: seq<Record>, k: nat)
    requires k <= |s| && k <= |t|
  {
    forall n: Name :: WithName(s, k, n) == WithName(t, k, n)
  }

  /** `t` is the first |t| records of `s` in order, those of equal names in their old order. */
  ghost predicate StablySorted(s: seq<Record>, t: seq<Record>) {
    |t| <= |s| && Sorted(t) && SameByName(s, t, |t|)
  }

  /** How often r occurs among the first k records. */
  function Count(s: seq<Record>, k: nat, r: Record): nat
    requires k <= |s|
  {
    if k == 0 then 0 else Count(s, k - 1, r) + if s[k - 1] == r then 1 else 0
  }

  lemma CountLast(s: seq<Record>, x: Record, r: Record)
    ensures multiset(s + [x])[r] == multiset(s)[r] + if x == r then 1 else 0
  {
    assert multiset(s + [x]) == multiset(s) + multiset{x};
  }

  lemma {:induction false} CountIsMultiset(s: seq<Record>, k: nat, r: Record)
    requires k <= |s|
    ensures Count(s, k, r) == multiset(s[..k])[r]
  {
    if k > 0 {
      CountIsMultiset(s, k - 1, r);
      CountLast(s[..k - 1], s[k - 1], r);
      assert s[..k] == s[..k - 1] + [s[k - 1]];
    }
  }

  lemma {:induction false} WithNameCounts(s: seq<Record>, k: nat, r: Record)
    requires k <= |s|
    ensures multiset(WithName(s, k, r.name))[r] == Count(s, k, r)
  {
    if k > 0 {
      WithNameCounts(s, k - 1, r);
      CountLast(WithName(s, k - 1, r.name), s[k - 1], r);
    }
  }

  /** In particular it is a permutation. */
  lemma StableSortIsPermutation(s: seq<Record>, t: seq<Record>)
    requires StablySorted(s, t) && |s| == |t|
    ensures multiset(s) == multiset(t)
  {
    assert s[..|s|] == s && t[..|s|] == t;
    forall r: Record ensures multiset(s)[r] == multiset(t)[r] {
      WithNameCounts(s, |s|, r);
      WithNameCounts(t, |s|, r);
      CountIsMultiset(s, |s|, r);
      CountIsMultiset(t, |s|, r);
      assert WithName(s, |s|, r.name) == WithName(t, |s|, r.name);
    }
  }

  // ---- inserting one record -----------------------------------------------------------

  /** x goes before s[j..] and after s[..j]. */
  predicate GoesAt(s: seq<Record>, x: Record, j: nat)
    requires j <= |s|
  {
    && (forall k :: j <= k < |s| ==> Order(x.name, s[k].name) == -1)
    && (j > 0 ==> Order(x.name, s[j - 1].name) != -1)
  }

  /** t is s with x put in at j. */
  predicate Spliced(t: seq<Record>, s: seq<Record>, x: Record, j: nat) {
    && j <= |s| && |t| == |s| + 1 && t[j] == x
    && (forall k :: 0 <= k < j ==> t[k] == s[k])
    && (forall k :: j < k < |t| ==> t[k] == s[k - 1])
  }

  lemma OrderBefore(s: seq<Record>, x: Record, j: nat, k: nat)
    requires InOrder(s) && j <= |s| && GoesAt(s, x, j) && k < j
    ensures Order(s[k].name, x.name) <= 0
  {
    var pivot := s[j - 1].name;
    OrderIsTotal(pivot, x.name, x.name);
    OrderMeaning(pivot, pivot);
    OrderIsTotal(s[k].name, pivot, x.name);
  }

  lemma SpliceSorted(t: seq<Record>, s: seq<Record>, x: Record, j: nat)
    requires InOrder(s) && Spliced(t, s, x, j) && GoesAt(s, x, j)
    ensures InOrder(t)
  {
    forall a, b | 0 <= a < b < |t| ensures Order(t[a].name, t[b].name) <= 0 {
      if a < j == b {
        OrderBefore(s, x, j, a);
      }
    }
  }

  /** Records that x jumps over have other names than x. */
  lemma {:induction false} SpliceWithName(t: seq<Record>, s: seq<Record>, x: Record, j: nat, k: nat, n: Name)
    requires Spliced(t, s, x, j) && GoesAt(s, x, j) && k <= |s|
    ensures k <= j ==> WithName(t, k, n) == WithName(s, k, n)
    ensures k >= j ==> WithName(t, k + 1, n) == WithName(s, k, n) + if x.name == n then [x] else []
  {
    if k > 0 {
      SpliceWithName(t, s, x, j, k - 1, n);
      if k > j {
        OrderMeaning(x.name, s[k - 1].name);
        assert t[k] == s[k - 1];
      }
    }
  }

  /** Inserting the next record where it goes turns a stable sort into a longer stable sort. */
  lemma SpliceKeepsStable(all: seq<Record>, s: seq<Record>, t: seq<Record>, j: nat)
    requires StablySorted(all, s) && |s| < |all|
    requires Spliced(t, s, all[|s|], j) && GoesAt(s, all[|s|], j)
    ensures StablySorted(all, t)
  {
    SortedIsInOrder(s);
    SpliceSorted(t, s, all[|s|], j);
    SortedIsInOrder(t);
    forall n: Name ensures WithName(all, |t|, n) == WithName(t, |t|, n) {
      SpliceWithName(t, s, all[|s|], j, |s|, n);
      assert WithName(all, |s|, n) == WithName(s, |s|, n);
    }
  }

  // ---- there is only one stable sort --------------------------------------------------

  lemma {:induction false} WithNameMember(s: seq<Record>, k: nat, n: Name, r: Record) returns (i: nat)
    requires k <= |s| && r in WithName(s, k, n)
    ensures i < k && s[i] == r && r.name == n
  {
    if s[k - 1].name == n && s[k - 1] == r {
      i := k - 1;
    } else {
      i := WithNameMember(s, k - 1, n, r);
    }
  }

  lemma LastIsAtMost(s: seq<Record>, t: seq<Record>, k: nat)
    requires 0 < k <= |s| && k <= |t| && InOrder(t) && SameByName(s, t, k)
    ensures Order(s[k - 1].name, t[k - 1].name) <= 0
  {
    var a := s[k - 1];
    assert a in WithName(s, k, a.name) && a in WithName(t, k, a.name);
    var i := WithNameMember(t, k, a.name, a);
    OrderMeaning(a.name, a.name);
  }

  lemma SameLast(s: seq<Record>, t: seq<Record>, k: nat)
    requires 0 < k <= |s| && k <= |t| && InOrder(s) && InOrder(t) && SameByName(s, t, k)
    ensures s[k - 1] == t[k - 1]
  {
    LastIsAtMost(s, t, k);
    LastIsAtMost(t, s, k);
    var a, b := s[k - 1], t[k - 1];
    OrderIsTotal(a.name, b.name, a.name);
    var same := WithName(s, k, a.name);
    assert same[|same| - 1] == a && same[|same| - 1] == b;
  }

  lemma SameInit(s: seq<Record>, t: seq<Record>, k: nat, n: Name)
    requires 0 < k <= |s| && k <= |t| && s[k - 1] == t[k - 1] && WithName(s, k, n) == WithName(t, k, n)
    ensures WithName(s, k - 1, n) == WithName(t, k - 1, n)
  {
    var p, q := WithName(s, k - 1, n), WithName(t, k - 1, n);
    var tail := if s[k - 1].name == n then [s[k - 1]] else [];
    assert p == (p + tail)[..|p|] && q == (q + tail)[..|q|];
  }

  lemma {:induction false} InOrderIsUnique(s: seq<Record>, t: seq<Record>, k: nat)
    requires k <= |s| && k <= |t| && InOrder(s) && InOrder(t) && SameByName(s, t, k)
    ensures forall i :: 0 <= i < k ==> s[i] == t[i]
  {
    if k > 0 {
      SameLast(s, t, k);
      var m := k - 1;
      forall n: Name ensures WithName(s, m, n) == WithName(t, m, n) {
        SameInit(s, t, k, n);
      }
      InOrderIsUnique(s, t, m);
    }
  }

  /** The order and the stability together leave no choice. */
  lemma StableSortIsUnique(all: seq<Record>, s: seq<Record>, t: seq<Record>)
    requires StablySorted(all, s) && StablySorted(all, t) && |s| == |t|
    ensures s == t
  {
    SortedIsInOrder(s);
    SortedIsInOrder(t);
    forall n: Name ensures WithName(s, |s|, n) == WithName(t, |s|, n) {
      assert WithName(all, |s|, n) == WithName(s, |s|, n) == WithName(t, |s|, n);
    }
    InOrderIsUnique(s, t, |s|);
  }

  /** What one round does to the array puts the record of slot i into the slots before it. */
  lemma RoundIsSplice(was: seq<Record>, now: seq<Record>, i: nat, j: nat)
    requires j < i < |was| == |now| && now[j + 1] == was[i]
    requires forall k :: 1 <= k <= j ==> now[k] == was[k]
    requires forall k :: j + 1 < k <= i ==> now[k] == was[k - 1]
    requires forall k :: j < k < i ==> Order(was[i].name, was[k].name) == -1
    requires j > 0 ==> Order(was[i].name, was[j].name) != -1
    ensures Spliced(now[1..i + 1], was[1..i], was[i], j) && GoesAt(was[1..i], was[i], j)
  {
  }

  lemma ShortIsSorted(all: seq<Record>, k: nat)
    requires k <= |all| && k <= 1
    ensures StablySorted(all, all[..k])
  {
    forall n: Name ensures WithName(all, k, n) == WithName(all[..k], k, n) {
    }
  }

  // ---- the sort in place --------------------------------------------------------------

  const MAXSIZE := 100

  class FileList {
    const files: array<Record>
    var length: nat

    ghost predicate Valid()
      reads this
    {
      files.Length == MAXSIZE + 1 && length <= MAXSIZE
    }

    /** The records, which occupy slots 1 to length. */
    ghost function Records(): seq<Record>
      requires Valid()
      reads this, files
    {
      files[1..length + 1]
    }

    constructor (filler: Record)
      ensures Valid() && length == 0 && fresh(files) && files.Length == 101
    {
      files := new Record[MAXSIZE + 1](_ => filler);
      length := 0;
    }

    method LsSort()
      requires Valid()
      modifies files
      ensures |Records()| == |old(Records())| && StablySorted(old(Records()), Records())
      ensures forall k :: length < k < files.Length ==> files[k] == old(files[k])
    {
      ghost var all := Records();
      ghost var done := all[..if length == 0 then 0 else 1];
      ShortIsSorted(all, |done|);
      var i := 2;
      while i <= length
        invariant 2 <= i && |done| == (if length == 0 then 0 else i - 1) <= length
        invariant files[1..1 + |done|] == done && StablySorted(all, done)
        invariant forall k :: |done| < k < files.Length ==> files[k] == old(files[k])
      {
        done := SortRound(i, all, done);
        i := i + 1;
      }
    }

    /** One round of the outer loop. */
    method SortRound(i: nat, ghost all: seq<Record>, ghost done: seq<Record>) returns (ghost more: seq<Record>)
      requires Valid() && 2 <= i <= length && files[1..i] == done && StablySorted(all, done)
      requires |all| >= i && all[i - 1] == files[i]
      modifies files
      ensures files[1..i + 1] == more && StablySorted(all, more)
      ensures forall k :: i < k < files.Length ==> files[k] == old(files[k])
    {
      ghost var was := files[..];
      ghost var j := InsertRecord(i);
      more := files[1..i + 1];
      RoundIsSplice(was, files[..], i, j);
      assert was[1..i] == done && files[..][1..i + 1] == more;
      SpliceKeepsStable(all, done, more, j);
    }

    /** The record in slot i goes to its place among the sorted slots before it; j is how many of them
        stay in front of it. */
    method InsertRecord(i: nat) returns (ghost j: nat)
      requires Valid() && 2 <= i <= length
      modifies files
      ensures j < i && files[j + 1] == old(files[i])
      ensures forall k :: 1 <= k <= j ==> files[k] == old(files[k])
      ensures forall k :: j + 1 < k <= i ==> files[k] == old(files[k - 1])
      ensures forall k :: i < k < files.Length ==> files[k] == old(files[k])
      ensures forall k :: j < k < i ==> Order(old(files[i]).name, old(files[k]).name) == -1
      ensures j > 0 ==> Order(old(files[i]).name, old(files[j]).name) != -1
    {
      var r := Compare(files[i].name, files[i - 1].name);
      j := i - 1;
      if r == -1 {
        files[0] := files[i];
        files[i] := files[i - 1];
        label shifting:
        var m := ShiftGreater(i);
        forall k | m < k < i ensures Order(old(files[i]).name, old(files[k]).name) == -1 {
          assert k <= i - 2 ==> old@shifting(files[k]) == old(files[k]);
        }
        files[m + 1] := files[0];
        j := m;
      }
    }

    /** The records before slot i - 1 that are greater than the one in slot 0 move one slot up, down to
        slot m; slot 0 itself stops the loop at the latest. */
    method ShiftGreater(i: nat) returns (m: nat)
      requires Valid() && 2 <= i <= length
      modifies files
      ensures m <= i - 2 && files[0] == old(files[0])
      ensures forall k :: 1 <= k <= m || i <= k < files.Length ==> files[k] == old(files[k])
      ensures forall k :: m + 1 < k < i ==> files[k] == old(files[k - 1])
      ensures forall k :: m < k <= i - 2 ==> Order(files[0].name, old(files[k]).name) == -1
      ensures Order(files[0].name, files[m].name) != -1
    {
      OrderMeaning(files[0].name, files[0].name);
      m := i - 2;
      var stop := Compare(files[0].name, files[m].name);
      while stop == -1
        invariant m <= i - 2 && files[0] == old(files[0]) && stop == Order(files[0].name, files[m].name)
        invariant forall k :: 1 <= k <= m || i <= k < files.Length ==> files[k] == old(files[k])
        invariant forall k :: m + 1 < k < i ==> files[k] == old(files[k - 1])
        invariant forall k :: m < k <= i - 2 ==> Order(files[0].name, old(files[k]).name) == -1
        decreases m
      {
        files[m + 1] := files[m];
        m := m - 1;
        stop := Compare(files[0].name, files[m].name);
      }
    }
  }
}
