/** The parsed form of a unified diff, shared by the parser, the printer and the applier. */
module PatchTypes {
  /** `prefix` is ' ', '+', '-' or '\\'. */
  datatype HunkLine = HunkLine(prefix: char, content: string)

  datatype Hunk = Hunk(oldStart: int, oldLines: int, newStart: int, newLines: int, lines: seq<HunkLine>)

  datatype Op = Modify | Create | Delete | Rename

  /** Modes are the octal permission bits, 0 when absent. */
  datatype FileChange = FileChange(
    op: Op, path: string, oldPath: string, hunks: seq<Hunk>, newMode: nat, isBinary: bool,
    originalAPath: string, originalBPath: string, hasHeader: bool, createMode: nat)

  /** strings.TrimSuffix(s, "\r") */
  function TrimCR(s: string): string {
    if |s| > 0 && s[|s| - 1] == '\r' then s[..|s| - 1] else s
  }
}
