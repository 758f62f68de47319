/** The events of src/cli/output.rs. Styles and timings never influence delivery, so a styled
    line is its text and an approval request is its identity. */
module OutputEvents {
  import opened Utf8

  datatype OutputEvent =
    | Line(line: string)
    | ModelUpdateLine(line: string)
    | ToolOutputLine(line: string)
    | ToolHeaderLine(line: string)
    | CommandHeaderLine(line: string)
    | CommandOutputLine(line: string)
    | ReasoningChunk(chunk: string)
    | ReasoningAttemptReset
    | UserPromptLine(line: string)
    | QueuedMessageStarted(remaining: nat)
    | LocalCommandEcho(line: string)
    | RawAnsi(chunk: string)
    | Completion(chunk: string)
    | CompletionAvailable(chunk: string)
    | ErrorBox(chunk: string)
    | TurnEnd(accumulatedText: string)
    | TurnIndicator(line: string)
    | ApprovalRequested(id: nat)
    | ApprovalFinished(id: nat)
  {
    predicate IsLossy() { ModelUpdateLine? }

    predicate IsApproval() { ApprovalRequested? || ApprovalFinished? }

    /** Kept on the priority lane when the main channel refuses it. */
    predicate IsCritical() {
      TurnEnd? || Completion? || CompletionAvailable? || ErrorBox? || QueuedMessageStarted? || UserPromptLine?
    }

    /** Snapshots, of reasoning text or of a line in progress, may be overtaken; the rest may not. */
    predicate IsOrdered() { !ReasoningChunk? && !IsLossy() }

    /** The events that wait in the deferred queue. */
    predicate IsDeferrable() { IsOrdered() && !IsApproval() && !IsCritical() }

    function EstimatedBytes(): nat {
      match this
      case ReasoningChunk(c) => ByteLen(c)
      case RawAnsi(c) => ByteLen(c)
      case Completion(c) => ByteLen(c)
      case CompletionAvailable(c) => ByteLen(c)
      case ErrorBox(c) => ByteLen(c)
      case TurnEnd(t) => ByteLen(t)
      case QueuedMessageStarted(_) => 8
      case ApprovalFinished(_) => 8
      case ReasoningAttemptReset => 0
      case ApprovalRequested(_) => 1024
      case _ => ByteLen(line)
    }

    /** The drop counter that a counted loss of this event goes to. */
    function Category(): DropCategory {
      match this
      case Line(_) => ModelText
      case ModelUpdateLine(_) => ModelText
      case ToolOutputLine(_) => ToolOutput
      case ToolHeaderLine(_) => ToolOutput
      case CommandHeaderLine(_) => ToolOutput
      case CommandOutputLine(_) => ToolOutput
      case ReasoningChunk(_) => Reasoning
      case ApprovalRequested(_) => ApprovalPrompt
      case _ => Other
    }
  }

  datatype DropCategory = ModelText | ToolOutput | Reasoning | ApprovalPrompt | Other

  /** SequencedOutputEvent */
  datatype Sequenced = Sequenced(sequence: nat, event: OutputEvent)
}
