/** The transition table of the escape sequence parser. */
module EscapeTable {
  datatype Action =
    | Ignore | Error | Print | Execute | OscStart | OscPut | OscEnd | CsiDispatch
    | Param | Collect | EscDispatch | Clear | DcsHook | DcsPut | DcsUnhook

  datatype Entry = Entry(action: Action, next: nat)

  // The entry for a state and a code point; code points from 160 share one column.
  type Table = (nat, nat) -> Entry

  const NON_ASCII: nat := 160

  // States of the VT500 machine.
  const GROUND: nat := 0
  const ESCAPE: nat := 1
  const ESCAPE_INTERMEDIATE: nat := 2
  const CSI_ENTRY: nat := 3
  const CSI_PARAM: nat := 4
  const CSI_INTERMEDIATE: nat := 5
  const CSI_IGNORE: nat := 6
  const SOS_PM_APC_STRING: nat := 7
  const OSC_STRING: nat := 8
  const DCS_ENTRY: nat := 9
  const DCS_PARAM: nat := 10
  const DCS_IGNORE: nat := 11
  const DCS_INTERMEDIATE: nat := 12
  const DCS_PASSTHROUGH: nat := 13

  predicate Printable(c: nat) { 32 <= c < 127 }

  predicate Executable(c: nat) { c < 24 || c == 25 || 28 <= c < 32 }

  /** The table as its builder leaves it.  A later entry of the builder
      overwrites an earlier one, so the last one comes first here. */
  function Vt500(s: nat, c: nat): Entry {
    if c == NON_ASCII && s == DCS_PASSTHROUGH then Entry(DcsPut, s)
    else if c == NON_ASCII && s == DCS_IGNORE then Entry(Ignore, s)
    else if c == NON_ASCII && s == CSI_IGNORE then Entry(Ignore, s)
    else if c == NON_ASCII && s == OSC_STRING then Entry(OscPut, s)
    else if c == NON_ASCII && s == GROUND then Entry(Print, s)
    // device control strings
    else if (c == 27 || c == 156 || c == 24 || c == 26) && s == DCS_PASSTHROUGH then Entry(DcsUnhook, GROUND)
    else if c == 127 && s == DCS_PASSTHROUGH then Entry(Ignore, s)
    else if (Printable(c) || Executable(c)) && s == DCS_PASSTHROUGH then Entry(DcsPut, s)
    else if 64 <= c < 127 && (s == DCS_ENTRY || s == DCS_PARAM || s == DCS_INTERMEDIATE) then
      Entry(DcsHook, DCS_PASSTHROUGH)
    else if 48 <= c < 64 && s == DCS_INTERMEDIATE then Entry(Ignore, DCS_IGNORE)
    else if 32 <= c < 48 && s == DCS_INTERMEDIATE then Entry(Collect, s)
    else if (28 <= c < 32 || c == 127 || Executable(c)) && s == DCS_INTERMEDIATE then Entry(Ignore, s)
    else if 32 <= c < 48 && s == DCS_PARAM then Entry(Collect, DCS_INTERMEDIATE)
    else if 60 <= c < 64 && s == DCS_PARAM then Entry(Ignore, DCS_IGNORE)
    else if 48 <= c < 60 && s == DCS_PARAM then Entry(Param, s)
    else if (28 <= c < 32 || c == 127 || Executable(c)) && s == DCS_PARAM then Entry(Ignore, s)
    else if (28 <= c < 32 || 32 <= c < 128 || Executable(c)) && s == DCS_IGNORE then Entry(Ignore, s)
    else if 60 <= c < 64 && s == DCS_ENTRY then Entry(Collect, DCS_PARAM)
    else if 48 <= c < 60 && s == DCS_ENTRY then Entry(Param, DCS_PARAM)
    else if 32 <= c < 48 && s == DCS_ENTRY then Entry(Collect, DCS_INTERMEDIATE)
    else if (28 <= c < 32 || c == 127 || Executable(c)) && s == DCS_ENTRY then Entry(Ignore, s)
    else if c == 80 && s == ESCAPE then Entry(Clear, DCS_ENTRY)
    // escape sequences
    else if (48 <= c < 80 || 81 <= c < 88 || c == 89 || c == 90 || c == 92 || 96 <= c < 127) && s == ESCAPE then
      Entry(EscDispatch, GROUND)
    else if 48 <= c < 127 && s == ESCAPE_INTERMEDIATE then Entry(EscDispatch, GROUND)
    else if 32 <= c < 48 && (s == ESCAPE || s == ESCAPE_INTERMEDIATE) then Entry(Collect, ESCAPE_INTERMEDIATE)
    // control sequences
    else if 32 <= c < 48 && s == CSI_PARAM then Entry(Collect, CSI_INTERMEDIATE)
    else if 64 <= c < 127 && s == CSI_INTERMEDIATE then Entry(CsiDispatch, GROUND)
    else if 48 <= c < 64 && s == CSI_INTERMEDIATE then Entry(Ignore, CSI_IGNORE)
    else if 32 <= c < 48 && (s == CSI_ENTRY || s == CSI_INTERMEDIATE) then Entry(Collect, CSI_INTERMEDIATE)
    else if 64 <= c < 127 && s == CSI_IGNORE then Entry(Ignore, GROUND)
    else if (32 <= c < 64 || c == 127) && s == CSI_IGNORE then Entry(Ignore, s)
    else if 60 <= c < 64 && s == CSI_PARAM then Entry(Ignore, CSI_IGNORE)
    else if 64 <= c < 127 && s == CSI_PARAM then Entry(CsiDispatch, GROUND)
    else if 48 <= c < 60 && s == CSI_PARAM then Entry(Param, s)
    else if 60 <= c < 64 && s == CSI_ENTRY then Entry(Collect, CSI_PARAM)
    else if 48 <= c < 60 && s == CSI_ENTRY then Entry(Param, CSI_PARAM)
    else if 64 <= c < 127 && s == CSI_ENTRY then Entry(CsiDispatch, GROUND)
    else if c == 91 && s == ESCAPE then Entry(Clear, CSI_ENTRY)
    // strings that are skipped
    else if c == 127 && s == SOS_PM_APC_STRING then Entry(Ignore, s)
    else if c == 156 && s == SOS_PM_APC_STRING then Entry(Ignore, GROUND)
    else if (Executable(c) || Printable(c)) && s == SOS_PM_APC_STRING then Entry(Ignore, s)
    else if (c == 88 || c == 94 || c == 95) && s == ESCAPE then Entry(Ignore, SOS_PM_APC_STRING)
    // operating system commands
    else if 28 <= c < 32 && s == OSC_STRING then Entry(Ignore, s)
    else if (c == 156 || c == 27 || c == 24 || c == 26 || c == 7) && s == OSC_STRING then Entry(OscEnd, GROUND)
    else if (c == 127 || Printable(c)) && s == OSC_STRING then Entry(OscPut, s)
    else if c == 93 && s == ESCAPE then Entry(OscStart, OSC_STRING)
    // control characters inside sequences
    else if c == 127 && (s == ESCAPE_INTERMEDIATE || s == CSI_INTERMEDIATE) then Entry(Ignore, s)
    else if c == 127 && (s == CSI_PARAM || s == CSI_ENTRY || s == ESCAPE) then Entry(Ignore, s)
    else if Executable(c) && (s == ESCAPE_INTERMEDIATE || s == CSI_INTERMEDIATE || s == CSI_IGNORE)
          then Entry(Execute, s)
    else if Executable(c) && (s == CSI_PARAM || s == CSI_ENTRY) then Entry(Execute, s)
    else if Executable(c) && s == OSC_STRING then Entry(Ignore, s)
    else if Executable(c) && (s == ESCAPE || s == GROUND) then Entry(Execute, s)
    // from every state
    else if c == 144 && s <= DCS_PASSTHROUGH then Entry(Clear, DCS_ENTRY)
    else if c == 155 && s <= DCS_PASSTHROUGH then Entry(Clear, CSI_ENTRY)
    else if (c == 152 || c == 158 || c == 159) && s <= DCS_PASSTHROUGH then Entry(Ignore, SOS_PM_APC_STRING)
    else if c == 157 && s <= DCS_PASSTHROUGH then Entry(OscStart, OSC_STRING)
    else if c == 27 && s <= DCS_PASSTHROUGH then Entry(Clear, ESCAPE)
    else if c == 156 && s <= DCS_PASSTHROUGH then Entry(Ignore, GROUND)
    else if (c == 24 || c == 26 || c == 153 || c == 154 || 128 <= c < 152) && s <= DCS_PASSTHROUGH then
      Entry(Execute, GROUND)
    else if Printable(c) && s == GROUND then Entry(Print, GROUND)
    else Entry(Error, GROUND)
  }
}
