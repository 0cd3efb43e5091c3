/** The command console of src/components/CommandConsole.tsx: an append-only log of
    entries, the text being typed, and a guard that lets one command be in flight at
    a time. `handleSubmit` awaits the device in the middle, so it is modelled as the
    part before the await (`Submit`) and the part after it (`Complete`). Entry
    timestamps come from the clock and are left out. */
module CommandConsole {
  import opened Wrappers
  import opened Text
  import opened Types

  datatype EntryType = CommandEntry | ResponseEntry | ErrorEntry

  datatype ConsoleEntry = ConsoleEntry(kind: EntryType, content: string)

  const ReadyBanner := "RGB Lighting OS Console v1.0 - Ready"
  const ClearedBanner := "Console cleared"

  /** The command `handleSubmit` goes on with, if any: the trimmed input, unless it is
      empty or a command is still being processed. */
  function AcceptedInput(input: string, isProcessing: bool): (c: Option<string>)
    ensures c.None? <==> isProcessing || forall k :: 0 <= k < |input| ==> IsJsWhitespace(input[k])
    ensures c.Some? ==> c.value == Trim(input) && c.value != [] && !IsJsWhitespace(c.value[0])
  {
    TrimEmpty(input);
    TrimEnds(input);
    var command := Trim(input);
    if command == [] || isProcessing then None else Some(command)
  }

  /** The text of the entry logged for a rejected send. */
  function ErrorText(reason: Thrown): (t: string)
    ensures reason.ErrorObject? ==> t == "Error: " + reason.message
    ensures reason.NonError? ==> t == "Error: Unknown error"
  {
    "Error: " + match reason
      case ErrorObject(message) => message
      case NonError => "Unknown error"
  }

  /** The entry logged once the send settles. */
  function SettledEntry(o: Outcome<CommandResponse>): (e: ConsoleEntry)
    ensures o.Fulfilled? ==> e == ConsoleEntry(ResponseEntry, o.value.message)
    ensures o.Failed? ==> e.kind == ErrorEntry && e.content == ErrorText(o.reason)
  {
    match o
    case Fulfilled(response) => ConsoleEntry(ResponseEntry, response.message)
    case Failed(reason) => ConsoleEntry(ErrorEntry, ErrorText(reason))
  }

  /** Every error entry starts with "Error: ", whatever was thrown. */
  lemma ErrorEntryPrefix(reason: Thrown)
    ensures |ErrorText(reason)| >= 7 && ErrorText(reason)[..7] == "Error: "
  {
  }

  class Console {
    var entries: seq<ConsoleEntry>
    var input: string
    var isProcessing: bool

    constructor ()
      ensures entries == [ConsoleEntry(ResponseEntry, ReadyBanner)]
      ensures input == "" && !isProcessing
    {
      entries := [ConsoleEntry(ResponseEntry, ReadyBanner)];
      input := "";
      isProcessing := false;
    }

    /** `addEntry`: one entry at the end, the earlier ones untouched. */
    method AddEntry(kind: EntryType, content: string)
      modifies this
      ensures entries == old(entries) + [ConsoleEntry(kind, content)]
      ensures |entries| == |old(entries)| + 1 && entries[..|old(entries)|] == old(entries)
      ensures input == old(input) && isProcessing == old(isProcessing)
    {
      entries := entries + [ConsoleEntry(kind, content)];
    }

    /** The input box's change handler. */
    method SetInput(text: string)
      modifies this
      ensures input == text
      ensures entries == old(entries) && isProcessing == old(isProcessing)
    {
      input := text;
    }

    /** `handleSubmit` up to the await: either nothing happens and nothing is sent, or the
        trimmed command is logged, the input cleared, the guard raised and the command
        returned as the text sent. */
    method Submit() returns (sent: Option<string>)
      modifies this
      ensures sent == AcceptedInput(old(input), old(isProcessing))
      ensures sent.None? ==>
        entries == old(entries) && input == old(input) && isProcessing == old(isProcessing)
      ensures sent.Some? ==>
        && entries == old(entries) + [ConsoleEntry(CommandEntry, sent.value)]
        && input == "" && isProcessing
    {
      var command := Trim(input);
      if command == [] || isProcessing {
        sent := None;
        return;
      }
      AddEntry(CommandEntry, command);
      input := "";
      isProcessing := true;
      sent := Some(command);
    }

    /** `handleSubmit` after the send settles with `o`: the reply or the error is logged,
        `onUpdate` runs only on success, and the guard is lowered in both cases. */
    method Complete(o: Outcome<CommandResponse>) returns (updateRequested: bool)
      modifies this
      ensures entries == old(entries) + [SettledEntry(o)]
      ensures updateRequested <==> o.Fulfilled?
      ensures !isProcessing && input == old(input)
    {
      match o {
        case Fulfilled(response) =>
          AddEntry(ResponseEntry, response.message);
          updateRequested := true;
        case Failed(reason) =>
          AddEntry(ErrorEntry, ErrorText(reason));
          updateRequested := false;
      }
      isProcessing := false;
    }

    /** `clearConsole`: the log becomes the one "Console cleared" entry. */
    method ClearConsole()
      modifies this
      ensures entries == [ConsoleEntry(ResponseEntry, ClearedBanner)]
      ensures input == old(input) && isProcessing == old(isProcessing)
    {
      entries := [ConsoleEntry(ResponseEntry, ClearedBanner)];
    }
  }
}
