/** A text file seen as the list of lines `readlines()` returns. Writing a
    list with `writelines` and reading it back gives the same list. */
module LineFiles {

  class LineFile {
    /** The file's lines, each with its own line terminator. */
    var lines: seq<string>

    /** A file holding `init`; a file newly opened for appending holds `[]`. */
    constructor (init: seq<string>)
      ensures lines == init
    {
      lines := init;
    }

    /** `f.write(''.join(more))` on a file opened for appending. */
    method Append(more: seq<string>)
      modifies this
      ensures lines == old(lines) + more
    {
      lines := lines + more;
    }
  }
}
