/**
 The four threaded versions of the word counter, side by side on the same two files.
 */
module WordCountVersions {
  import opened WordCount
  import Racing = RacingCounter
  import Locked = LockedCounter
  import Mailbox

  /** Versions 2, 3 and 4 end with the same total whatever their schedules; version 1 never exceeds it
      and falls short only where both files have words, and then some schedule leaves it at 1 or 2. */
  lemma VersionsAgree(texts: seq<string>, race: seq<nat>, locked: seq<nat>, own: seq<nat>, acts: seq<Mailbox.Action>)
    requires |texts| == 2
    requires Racing.IsSchedule(race) && Racing.Finished(texts, Racing.Run(texts, Racing.START, race))
    requires Locked.Finished(texts, Locked.Run(texts, locked))
    requires forall i :: 0 <= i < 2 ==> Locked.RunOwn(texts, own)[i].pos == |texts[i]|
    requires Mailbox.NoSpuriousWakeup(acts) && Mailbox.Run(texts, acts).main.Exit?
    ensures var total := Mailbox.Run(texts, acts).total;
            && Locked.Run(texts, locked).total == total
            && Locked.RunOwn(texts, own)[0].count + Locked.RunOwn(texts, own)[1].count == total
            && Racing.Run(texts, Racing.START, race).total <= total
            && (WordEndSet(texts[0]) == {} || WordEndSet(texts[1]) == {} ==>
                  Racing.Run(texts, Racing.START, race).total == total)
    ensures WordEndSet(texts[0]) != {} && WordEndSet(texts[1]) != {} ==>
              exists worst :: Racing.IsSchedule(worst) && Racing.Finished(texts, Racing.Run(texts, Racing.START, worst))
                              && Racing.Run(texts, Racing.START, worst).total <= 2
  {
    Mailbox.MailboxIsSafe(texts, acts);
    Locked.LockedCounts(texts, locked);
    Locked.OwnCountersCount(texts, own);
    Racing.RaceOutcomes(texts, Racing.Run(texts, Racing.START, race).total);
    Racing.RaceOutcomes(texts, if |WordEndSet(texts[0])| == 1 || |WordEndSet(texts[1])| == 1 then 1 else 2);
  }
}
