/** The documentation helper that deletes the word "module" from the first
    line of every generated reStructuredText file, leaving the rest of each
    file alone. */
module ChangeFirstLine {
  import opened Results
  import opened PyStrings
  import opened LineFiles

  /** The text deleted from each first line. */
  const Removed: string := "module"

  /** The line list `replace_first_line` writes back for one file: its first
      line with every occurrence of "module" deleted; a file without lines
      fails at `lines[0]`. */
  function FixFirstLine(lines: seq<string>): (r: Result<seq<string>>)
    ensures r.Err? <==> lines == []
    ensures r.Err? ==> r.error == IndexError
    ensures r.Ok? ==> |r.value| == |lines| && r.value[1..] == lines[1..]
  {
    if lines == [] then Err(IndexError)
    else Ok(lines[0 := Replace(lines[0], Removed, "")])
  }

  /** The new first line is six characters shorter for every occurrence of
      "module" the left-to-right scan removes. */
  lemma FirstLineShrinks(lines: seq<string>)
    requires lines != []
    ensures |FixFirstLine(lines).value[0]| == |lines[0]| - 6 * Count(lines[0], Removed)
  {
    ReplaceLength(lines[0], Removed, "");
  }

  /** A file is written back unchanged exactly when its first line does not
      contain "module". */
  lemma FixUnchangedIff(lines: seq<string>)
    requires lines != []
    ensures FixFirstLine(lines).value == lines <==> !Contains(lines[0], Removed)
  {
    CountZeroIff(lines[0], Removed);
    FirstLineShrinks(lines);
    if !Contains(lines[0], Removed) {
      ReplaceNoMatch(lines[0], Removed, "");
      assert FixFirstLine(lines).value == lines[0 := lines[0]];
    } else {
      assert |FixFirstLine(lines).value[0]| < |lines[0]|;
    }
  }

  /** The helper first line `modmoduleule` of the example below. */
  lemma ReformSteps(s: string)
    requires s == "modmoduleule"
    ensures Replace(s, Removed, "") == "module"
  {
    forall i | 0 <= i < 3
      ensures !MatchesAt(s, Removed, i)
    {
      assert s[i..][..6] != Removed by {
        assert s[i..][3 - i] != Removed[3 - i];
      }
    }
    assert MatchesAt(s, Removed, 3);
    ReplaceFromFirstMatch(s, Removed, "", 3);
    var tail := s[9..];
    assert tail == "ule";
    assert Replace(tail, Removed, "") == tail;
    assert s[..3] == "mod";
  }

  /** Deleting the occurrences can join the pieces around one into a new
      "module": the first line `modmoduleule` becomes `module`, so running
      the script twice changes the file again. */
  lemma ModuleCanReform()
    ensures FixFirstLine(["modmoduleule"]) == Ok(["module"])
    ensures Contains(FixFirstLine(["modmoduleule"]).value[0], Removed)
  {
    var lines := ["modmoduleule"];
    ReformSteps(lines[0]);
    assert lines[0 := "module"] == ["module"];
    assert StartsWith("module", Removed);
  }

  /** `replace_first_line` over the files that `glob` lists, in that order:
      each file's first line is rewritten in place; the first file without
      lines stops the loop with `IndexError`. `done` counts the files
      rewritten. */
  method ReplaceFirstLine(files: seq<LineFile>) returns (done: nat, r: Result<()>)
    requires forall a, b :: 0 <= a < b < |files| ==> files[a] != files[b]
    modifies set f | f in files
    ensures done <= |files|
    ensures r.Ok? ==> done == |files|
    ensures r.Err? ==> done < |files| && r.error == IndexError && old(files[done].lines) == []
    ensures forall k :: 0 <= k < done ==> FixFirstLine(old(files[k].lines)) == Ok(files[k].lines)
    ensures forall k :: done <= k < |files| ==> files[k].lines == old(files[k].lines)
  {
    done := 0;
    while done < |files|
      invariant done <= |files|
      invariant forall k :: 0 <= k < done ==> FixFirstLine(old(files[k].lines)) == Ok(files[k].lines)
      invariant forall k :: done <= k < |files| ==> files[k].lines == old(files[k].lines)
    {
      var infile := files[done];
      var lines := infile.lines;
      if lines == [] {
        return done, Err(IndexError);
      }
      lines := lines[0 := Replace(lines[0], Removed, "")];
      infile.lines := lines;
      done := done + 1;
    }
    return done, Ok(());
  }
}
