/**
  Classification of the ASCII command lines SLCAN clients send: a line
  starting with `O` opens the bus, one starting with `C` closes it, and
  everything else (the empty line included) is unknown. The raw text is
  always kept.
*/
module SlcanCommand {

  datatype CommandType = CommandUnknown | CommandOpen | CommandClose

  datatype Command = Command(kind: CommandType, raw: string)

  /**
    ParseCommand: the kind is decided by the first character alone, case
    sensitively, and the raw text is returned unchanged.
  */
  function ParseCommand(raw: string): (c: Command)
    ensures c.raw == raw
    ensures c.kind == CommandOpen <==> |raw| > 0 && raw[0] == 'O'
    ensures c.kind == CommandClose <==> |raw| > 0 && raw[0] == 'C'
    ensures c.kind == CommandUnknown <==> raw == "" || raw[0] !in {'O', 'C'}
  {
    if raw == "" then
      Command(CommandUnknown, raw)
    else
      match raw[0]
      case 'O' => Command(CommandOpen, raw)
      case 'C' => Command(CommandClose, raw)
      case _ => Command(CommandUnknown, raw)
  }

  /** Whatever follows the first character does not change the kind. */
  lemma FirstCharacterDecides(head: string, rest: string)
    requires head != ""
    ensures ParseCommand(head + rest).kind == ParseCommand(head).kind
  {
    assert (head + rest)[0] == head[0];
  }

  /** The test table of the package: `O`, `C`, the empty line and `T123`. */
  lemma ParseCommandExamples()
    ensures ParseCommand("O").kind == CommandOpen
    ensures ParseCommand("C").kind == CommandClose
    ensures ParseCommand("") == Command(CommandUnknown, "")
    ensures ParseCommand("T123") == Command(CommandUnknown, "T123")
    ensures ParseCommand("open").kind == CommandUnknown && ParseCommand("close").kind == CommandUnknown
  {
  }
}
