/**
 * The edit history as the commands see it, and the rich-text messages they
 * return. The history class itself is not part of this model: only the
 * calls the commands make on it are, recorded in order in a journal that
 * the block edits of a command also write to, so that the order of the two
 * is visible. Whether an undo finds nothing to undo is decided by an oracle
 * on the number of undos asked for so far.
 */
module History {
  import opened Wrappers
  import opened Vectors

  /** One part of a message: plain text, or a translation key with its arguments. */
  datatype RawPart = Text(text: string) | Translate(key: string, args: seq<string>)

  type RawText = seq<RawPart>

  /** What a command handler ends with: the message it returns, or what it throws. */
  datatype CommandResult = Done(msg: RawText) | Thrown(error: string, stack: Option<string>)

  /** The shape a history structure is recorded with: `'any'`, or a list of blocks. */
  datatype Shape = AnyShape | BlockList(blocks: seq<Vec>)

  datatype Event =
    | Record
    | AddUndo(start: Option<Vec>, end: Option<Vec>, shape: Shape)
    | AddRedo(start: Option<Vec>, end: Option<Vec>, shape: Shape)
    | Commit
    | Cancel
    | Undo
    | PlaceBlock(at: Vec)

  /** Everything observable a command does, in order. */
  class Journal {
    var events: seq<Event>

    constructor()
      ensures events == []
    {
      events := [];
    }

    method Add(e: Event)
      modifies this
      ensures events == old(events) + [e]
    {
      events := events + [e];
    }
  }

  /**
   * A player's history: recording between `record` and `commit` or `cancel`.
   * `refuses(k)` is what the (k+1)-th undo returns: true when there was
   * nothing to undo.
   */
  class EditHistory {
    const journal: Journal
    const refuses: nat -> bool
    var recording: bool
    var undos: nat

    constructor(journal: Journal, refuses: nat -> bool)
      ensures this.journal == journal && this.refuses == refuses && !recording && undos == 0
    {
      this.journal := journal;
      this.refuses := refuses;
      recording := false;
      undos := 0;
    }

    method Record()
      modifies this, journal
      ensures recording && undos == old(undos)
      ensures journal.events == old(journal.events) + [Event.Record]
    {
      journal.Add(Event.Record);
      recording := true;
    }

    method AddUndoStructure(start: Option<Vec>, end: Option<Vec>, shape: Shape)
      modifies journal
      ensures journal.events == old(journal.events) + [AddUndo(start, end, shape)]
    {
      journal.Add(AddUndo(start, end, shape));
    }

    method AddRedoStructure(start: Option<Vec>, end: Option<Vec>, shape: Shape)
      modifies journal
      ensures journal.events == old(journal.events) + [AddRedo(start, end, shape)]
    {
      journal.Add(AddRedo(start, end, shape));
    }

    method Commit()
      modifies this, journal
      ensures !recording && undos == old(undos)
      ensures journal.events == old(journal.events) + [Event.Commit]
    {
      journal.Add(Event.Commit);
      recording := false;
    }

    method Cancel()
      modifies this, journal
      ensures !recording && undos == old(undos)
      ensures journal.events == old(journal.events) + [Event.Cancel]
    {
      journal.Add(Event.Cancel);
      recording := false;
    }

    method IsRecording() returns (r: bool)
      ensures r == recording
    {
      r := recording;
    }

    /** Undoes one edit; true when there was nothing to undo. */
    method Undo() returns (nothing: bool)
      modifies this, journal
      ensures nothing == refuses(old(undos))
      ensures undos == old(undos) + 1 && recording == old(recording)
      ensures journal.events == old(journal.events) + [Event.Undo]
    {
      journal.Add(Event.Undo);
      nothing := refuses(undos);
      undos := undos + 1;
    }
  }
}
