/**
 What the threaded word counters count: a word ends at a non-alphanumeric byte that follows an
 alphanumeric one, so a word at the very end of a file is not counted.
 */
module WordCount {
  import opened Characters

  predicate WordEnds(text: string, i: nat) {
    0 < i < |text| && IsAlnum(text[i - 1]) && !IsAlnum(text[i])
  }

  /** The positions where a word ends. */
  function WordEndSet(text: string): set<nat> { set i: nat | i < |text| && WordEnds(text, i) }

  /** How many words end among the first k bytes. */
  function Words(text: string, k: nat): nat
    requires k <= |text|
  {
    if k == 0 then 0 else Words(text, k - 1) + if WordEnds(text, k - 1) then 1 else 0
  }

  function AllWords(text: string): nat { Words(text, |text|) }

  lemma {:induction false} WordsMonotone(text: string, j: nat, k: nat)
    requires j <= k <= |text|
    ensures Words(text, j) <= Words(text, k)
    ensures j < k && WordEnds(text, j) ==> Words(text, j) < Words(text, k)
  {
    if j < k {
      WordsMonotone(text, j, k - 1);
    }
  }

  lemma {:induction false} WordsAreWordEndsBelow(text: string, k: nat)
    requires k <= |text|
    ensures Words(text, k) == |set i: nat | i < k && WordEnds(text, i)|
  {
    var below := set i: nat | i < k && WordEnds(text, i);
    if k > 0 {
      WordsAreWordEndsBelow(text, k - 1);
      var before := set i: nat | i < k - 1 && WordEnds(text, i);
      assert below == before + if WordEnds(text, k - 1) then {k - 1} else {};
    } else {
      assert below == {};
    }
  }

  /** The running count is the number of word-end positions. */
  lemma WordsAreWordEnds(text: string)
    ensures AllWords(text) == |WordEndSet(text)|
  {
    WordsAreWordEndsBelow(text, |text|);
    assert WordEndSet(text) == set i: nat | i < |text| && WordEnds(text, i);
  }

  /** What fopen finds. */
  datatype File = Unreadable | Readable(text: string)

  function TextOf(file: File): string { match file case Readable(text) => text case Unreadable => "" }

  /** The counting loop all four programs share, run by one thread on its own counter. */
  method CountWords(file: File) returns (count: nat)
    ensures count == |WordEndSet(TextOf(file))|
  {
    count := 0;
    var prevc := '\0';
    WordsAreWordEnds(TextOf(file));
    if file.Readable? {
      for i := 0 to |file.text|
        invariant prevc == if i == 0 then '\0' else file.text[i - 1]
        invariant count == Words(file.text, i)
      {
        var c := file.text[i];
        if !IsAlnum(c) && IsAlnum(prevc) {
          count := count + 1;
        }
        prevc := c;
      }
    }
  }
}
