/**
 * Command dispatch: every registered handler is wrapped so that it reads and
 * clears the one-shot action-bar flag, prints what the command returns, and
 * on a throw cancels a recording history before printing the error. Printing
 * is modelled as the list of outputs a dispatch produces.
 */
module Dispatch {
  import opened Wrappers
  import opened Vectors
  import opened History
  import SetCommand
  import UndoCommand

  /** One `print` or `printerr` call, and whether it goes to the action bar. */
  datatype Output = Message(msg: RawText, toActionBar: bool) | ErrorText(error: string, toActionBar: bool)

  /** The commands whose handlers are part of this model, and a stand-in for any other. */
  datatype Command =
    | SetCmd(session: SetCommand.SessionView, args: seq<string>, setFailsFor: string -> Vec -> bool)
    | UndoCmd(times: nat)
      /** A handler that may start a record and then returns or throws `result`. */
    | OtherCmd(records: bool, result: CommandResult)

  /** What a dispatch prints for a handler's result: the stack trace, if any, always goes to chat. */
  function Report(result: CommandResult, toActionBar: bool): (out: seq<Output>)
    ensures result.Done? ==> out == [Message(result.msg, toActionBar)]
    ensures result.Thrown? ==> |out| >= 1 && out[0] == ErrorText(result.error, toActionBar)
    ensures result.Thrown? && result.stack.None? ==> |out| == 1
    ensures result.Thrown? && result.stack.Some? ==> |out| == 2 && out[1] == ErrorText(result.stack.value, false)
  {
    match result
    case Done(msg) => [Message(msg, toActionBar)]
    case Thrown(e, stack) =>
      [ErrorText(e, toActionBar)] + if stack.Some? then [ErrorText(stack.value, false)] else []
  }

  class Dispatcher {
    var actionBarFlag: bool
    var registered: seq<string>

    constructor()
      ensures !actionBarFlag && registered == []
    {
      actionBarFlag := false;
      registered := [];
    }

    /** printToActionBar: the next dispatch prints to the action bar. */
    method PrintToActionBar()
      modifies this
      ensures actionBarFlag && registered == old(registered)
    {
      actionBarFlag := true;
    }

    method Register(name: string)
      modifies this
      ensures registered == old(registered) + [name] && actionBarFlag == old(actionBarFlag)
    {
      registered := registered + [name];
    }

    /**
     * The registration loop: every command name once, in the command list's
     * own order, which is not modelled.
     */
    method RegisterAll(names: set<string>)
      modifies this
      ensures |registered| == |old(registered)| + |names|
      ensures registered[..|old(registered)|] == old(registered)
      ensures multiset(registered[|old(registered)|..]) == multiset(names)
      ensures actionBarFlag == old(actionBarFlag)
    {
      ghost var r0 := registered;
      var remaining := names;
      while remaining != {}
        invariant remaining <= names
        invariant |registered| == |r0| + |names - remaining|
        invariant registered[..|r0|] == r0
        invariant multiset(registered[|r0|..]) == multiset(names - remaining)
        invariant actionBarFlag == old(actionBarFlag)
        decreases |remaining|
      {
        var name :| name in remaining;
        ghost var before := registered;
        Register(name);
        assert registered[|r0|..] == before[|r0|..] + [name];
        assert names - (remaining - {name}) == (names - remaining) + {name};
        remaining := remaining - {name};
      }
    }

    /**
     * One dispatch of a registered command. `builder` is whether the sender
     * passes the builder check, `hadSession` whether the sender already had
     * a session, and `history` that session's history (the one the session
     * lookup creates when there was none).
     */
    method Dispatch(cmd: Command, builder: bool, notBuilder: string, hadSession: bool, history: EditHistory)
      returns (out: seq<Output>, result: CommandResult)
      requires cmd.UndoCmd? ==> cmd.times >= 1
      modifies this, history, history.journal
      ensures !actionBarFlag && registered == old(registered)
      ensures out == Report(result, old(actionBarFlag))
      ensures result.Thrown? ==> (hadSession || builder ==> !history.recording)
      ensures !builder ==>
        result == Thrown(notBuilder, None)
        && history.journal.events == old(history.journal.events) + (if hadSession && old(history.recording) then [Event.Cancel] else [])
      ensures builder && cmd.SetCmd? ==>
        (result.Done? <==> |cmd.session.selected| > 0 && !SetCommand.PatternMissing(cmd.session, cmd.args))
        && (result.Done? ==> history.journal.events == old(history.journal.events) + SetCommand.SetEvents(cmd.session))
        && (result.Thrown? ==> history.journal.events == old(history.journal.events) + (if old(history.recording) then [Event.Cancel] else []))
      ensures builder && cmd.UndoCmd? ==>
        var count := UndoCommand.UndoneCount(history.refuses, old(history.undos), cmd.times);
        result == Done(UndoCommand.UndoMessage(count))
        && history.journal.events == old(history.journal.events) + seq(UndoCommand.UndoCalls(count, cmd.times), _ => Event.Undo)
      ensures builder && cmd.OtherCmd? ==>
        var started := if cmd.records then [Event.Record] else [];
        result == cmd.result
        && history.journal.events == old(history.journal.events) + started
           + (if result.Thrown? && (cmd.records || old(history.recording)) then [Event.Cancel] else [])
    {
      var toActionBar := actionBarFlag;
      actionBarFlag := false;
      if !builder {
        result := Thrown(notBuilder, None);
      } else {
        match cmd
        case SetCmd(s, args, setFailsFor) =>
          result := SetCommand.Handle(s, args, history, setFailsFor);
        case UndoCmd(times) =>
          var count, msg := UndoCommand.Undo(times, history);
          result := Done(msg);
        case OtherCmd(records, r) =>
          if records {
            history.Record();
          }
          result := r;
      }
      if result.Thrown? && (hadSession || builder) {
        var recording := history.IsRecording();
        if recording {
          history.Cancel();
        }
      }
      out := Report(result, toActionBar);
    }
  }

  /** The action-bar flag applies to the next dispatch only. */
  method FlagIsOneShot(d: Dispatcher, first: Command, second: Command, history: EditHistory)
    returns (out1: seq<Output>, out2: seq<Output>)
    requires first.UndoCmd? ==> first.times >= 1
    requires second.UndoCmd? ==> second.times >= 1
    modifies d, history, history.journal
    ensures |out1| >= 1 && out1[0].toActionBar
    ensures |out2| >= 1 && !out2[0].toActionBar
  {
    d.PrintToActionBar();
    var r1, r2;
    out1, r1 := d.Dispatch(first, true, "", true, history);
    out2, r2 := d.Dispatch(second, true, "", true, history);
  }
}
