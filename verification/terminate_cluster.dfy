/**
 * terminate-cluster.py: ask for confirmation, then terminate every instance of the first
 * reservation with one provider command. `input()` is the `answer` parameter.
 */
module TerminateCluster {
  import opened Basics
  import opened Text

  const TerminatePrefix: string := "aws ec2 terminate-instances --instance-ids "

  datatype TerminateOutcome =
    | NoInstance
      /** The answer was not `y`: nothing is terminated. */
    | Cancelled(total: nat)
    | Terminated(total: nat, command: string)

  /** `confirm.strip().lower() == 'y'`. */
  predicate Confirmed(answer: string) {
    Lower(Strip(answer)) == "y"
  }

  /** The command that terminates the given instance ids, joined by single spaces in query order. */
  function TerminateCommand(ids: seq<string>): string {
    TerminatePrefix + Join(ids, " ")
  }

  /**
   * terminate-cluster.py `main` after the provider query. `status[r]` lists the instance ids of
   * reservation `r` (the `[InstanceId]` rows with `itemgetter(0)` already applied).
   */
  function Terminate(status: seq<seq<string>>, answer: string): (out: TerminateOutcome)
    ensures out == NoInstance <==> status == []
    ensures status != [] ==> out.total == |status[0]|
    ensures out.Terminated? <==> status != [] && Confirmed(answer)
    ensures out.Terminated? ==> out.command == TerminateCommand(status[0])
  {
    if |status| == 0 then NoInstance
    else
      var ids := status[0];
      var total := |ids|;
      if !Confirmed(answer) then Cancelled(total)
      else Terminated(total, TerminatePrefix + Join(ids, " "))
  }

  /** Exactly the answers `y` and `Y`, with any surrounding whitespace, confirm. */
  lemma ConfirmedIff(answer: string)
    ensures Confirmed(answer) <==> Strip(answer) == "y" || Strip(answer) == "Y"
  {
    var t := Strip(answer);
    if |t| == 1 {
      assert Lower(t) == [LowerChar(t[0])];
      assert t == "y" || t == "Y" ==> Lower(t) == "y";
      assert Lower(t) == "y" ==> t == [t[0]] && (t[0] == 'y' || t[0] == 'Y');
    }
  }

  /** Any other answer, including the empty one, cancels. */
  lemma EmptyAnswerCancels(status: seq<seq<string>>)
    requires status != []
    ensures Terminate(status, "") == Cancelled(|status[0]|)
  {
    assert Strip("") == "";
  }

  /**
   * The ids can be read back from the command: the text after the fixed prefix, split at single
   * spaces, is the id list, as long as no id is empty or holds a space.
   */
  lemma IdsOfCommand(ids: seq<string>)
    requires forall i :: 0 <= i < |ids| ==> ids[i] != [] && ' ' !in ids[i]
    ensures |TerminatePrefix| <= |TerminateCommand(ids)|
    ensures Split(TerminateCommand(ids)[|TerminatePrefix|..], ' ') == ids
  {
    var c := TerminateCommand(ids);
    assert c[|TerminatePrefix|..] == Join(ids, " ");
    SplitJoin(ids, ' ');
  }
}
