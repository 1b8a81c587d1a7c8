/**
 * The undo command: up to `times` undos, stopping at the first one that
 * finds nothing to undo, and a message with the number undone.
 */
module UndoCommand {
  import opened Vectors
  import opened History

  /**
   * How many undos succeed in a row, out of at most `times`, when the first
   * of them is the (from+1)-th undo of the history.
   */
  function UndoneCount(refuses: nat -> bool, from: nat, times: nat): (i: nat)
    ensures i <= times
    ensures forall j :: from <= j < from + i ==> !refuses(j)
    ensures i < times ==> refuses(from + i)
    decreases times
  {
    if times == 0 || refuses(from) then 0
    else
      UndoneCount(refuses, from + 1, times - 1) + 1
  }

  /** The undo calls made: one more than the count when a refused call stopped the loop. */
  function UndoCalls(count: nat, times: nat): nat
  {
    if count < times then count + 1 else times
  }

  /** The count is zero exactly when the very first undo found nothing. */
  lemma NoneIffFirstRefused(refuses: nat -> bool, from: nat, times: nat)
    requires times >= 1
    ensures UndoneCount(refuses, from, times) == 0 <==> refuses(from)
  {
  }

  /** No call follows a refused one, and there are never more than `times`. */
  lemma CallsBounded(refuses: nat -> bool, from: nat, times: nat)
    ensures var i := UndoneCount(refuses, from, times);
      UndoCalls(i, times) <= times && (UndoCalls(i, times) == i + 1 ==> refuses(from + i))
  {
  }

  function UndoMessage(count: nat): RawText
  {
    [Translate(if count == 0 then "worldedit.undo.none" else "worldedit.undo.undone", [NatToString(count)])]
  }

  /**
   * The handler: `times` comes from the argument parser, which enforces at
   * least 1 and defaults to 1.
   */
  method Undo(times: nat, history: EditHistory) returns (count: nat, msg: RawText)
    requires times >= 1
    modifies history, history.journal
    ensures count == UndoneCount(history.refuses, old(history.undos), times)
    ensures history.undos == old(history.undos) + UndoCalls(count, times)
    ensures history.journal.events == old(history.journal.events) + seq(UndoCalls(count, times), _ => Event.Undo)
    ensures history.recording == old(history.recording)
    ensures msg == UndoMessage(count)
  {
    ghost var from := history.undos;
    count := 0;
    while count < times
      invariant 0 <= count <= times
      invariant history.undos == from + count
      invariant history.journal.events == old(history.journal.events) + seq(count, _ => Event.Undo)
      invariant history.recording == old(history.recording)
      invariant forall j :: from <= j < from + count ==> !history.refuses(j)
    {
      var nothing := history.Undo();
      assert seq(count + 1, _ => Event.Undo) == seq(count, _ => Event.Undo) + [Event.Undo];
      if nothing {
        Stopped(history.refuses, from, times, count);
        msg := UndoMessage(count);
        return;
      }
      count := count + 1;
    }
    Completed(history.refuses, from, times);
    msg := UndoMessage(count);
  }

  lemma {:induction false} Stopped(refuses: nat -> bool, from: nat, times: nat, i: nat)
    requires i < times && refuses(from + i)
    requires forall j :: from <= j < from + i ==> !refuses(j)
    ensures UndoneCount(refuses, from, times) == i
    decreases i
  {
    if i > 0 {
      Stopped(refuses, from + 1, times - 1, i - 1);
    }
  }

  lemma {:induction false} Completed(refuses: nat -> bool, from: nat, times: nat)
    requires forall j :: from <= j < from + times ==> !refuses(j)
    ensures UndoneCount(refuses, from, times) == times
    decreases times
  {
    if times > 0 {
      Completed(refuses, from + 1, times - 1);
    }
  }
}
