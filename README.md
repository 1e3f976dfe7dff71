# Narrowband SED slicer, modelled in Dafny

The script `src/a2_create_narrowband_seds.py` reads one interpolated spectral
energy distribution (SED). The SED is a text table: wavelength in Angstrom and
flux, one row per line, with leading comment lines. From it the script writes
21 narrowband SEDs and one broadband SED.

Each output has the input's length and keeps the comment lines. Every data row
is rewritten as `<wave>        0.0`. A range of rows is then copied back from
the input:

- narrowband `i < 20` copies the half-open range of line numbers `lin_nums[i]`
  up to `lin_nums[i+1]`;
- narrowband 20 copies the closed range `lin_nums[20]` to `lin_nums[21]`;
- the broadband copies the closed range `lin_nums[0]` to `lin_nums[21]`.

`lin_nums` are the line numbers where the 22 breakpoint wavelengths
5310 … 6960 occur. Last, every output gets the normalisation row: the row
holding `5000.0`, with its flux divided by 100.

The small helper `docs/rst/change_firstline.py` deletes every `module` from the
first line of each `.rst` file.

The files of the model:

- `results.dfy` (module `Results`): `Option`, and `Result` with the Python
  exceptions the scripts can raise (`IndexError`, `NameError`, `ValueError`).
  Every crash path of the scripts is an error value of the model. No operation
  demands more of its inputs than the script does.
- `py_strings.dfy` (module `PyStrings`): the Python string operations the
  scripts use:
  - `lstrip`, `strip`, `startswith`, `in`;
  - `split` (`Tokens`, with Python's full white-space set);
  - `replace` (scanning left to right without overlap);
  - `str` of a natural number.
- `line_files.dfy` (module `LineFiles`): a text file as an object holding its
  list of lines.
- `narrowband_seds.dfy` (module `NarrowbandSeds`): every function of the
  slicer. Pure functions give the content of each output; the script's loops
  are methods proved to produce exactly that content. The lemmas prove:
  - the band layout;
  - that the broadband is the union of the narrowbands;
  - that the normalisation row takes precedence.
- `change_firstline.dfy` (module `ChangeFirstLine`): `replace_first_line` and
  its frame properties.

The slicing theorems assume what the script silently relies on:

- the input is well formed (`WellFormed`): its leading comment lines start
  with `#` in the first column, and every later line is a data row with a
  field;
- every line number is an input line (`LinInRange`);
- there are at least 22 line numbers, and the first 22 are strictly
  increasing (`Increasing`);
- the normalisation row exists.

Without these assumptions, the writers' contracts say which exception the
script raises.

## Model

| member | source | states |
|---|---|---|
| PyStrings.IsSpace | src/a2_create_narrowband_seds.py:100 | the white-space set of `str.isspace`, which `lstrip`, `strip` and `split` use (lines 100, 119, 155-156, 319): the ASCII controls TAB to CR, FS to US, the space, and the Unicode space and separator characters |
| PyStrings.LStrip | src/a2_create_narrowband_seds.py:100 | `lstrip()` never lengthens a line and leaves no leading white space |
| PyStrings.LStripSpec | src/a2_create_narrowband_seds.py:100 | `lstrip()` keeps a suffix and removes only white space |
| PyStrings.LStripNoLeadingSpace | src/a2_create_narrowband_seds.py:100 | a line without leading white space is its own `lstrip()` |
| PyStrings.RStrip | src/a2_create_narrowband_seds.py:119 | the right half of `strip()`: never lengthens a line and leaves no trailing white space; `RStripSpec` shows it removes exactly a white-space suffix |
| PyStrings.Strip | src/a2_create_narrowband_seds.py:119 | `line.strip()`: never longer than the line, and a non-empty result neither starts nor ends with white space |
| PyStrings.StartsWith | src/a2_create_narrowband_seds.py:318 | `line.startswith(p)` (also lines 119 and 356): `p` is a prefix of the line; it decides which lines get a zero row (`ZeroLines`, `ZeroLinesSkipComments`) |
| PyStrings.RStripSpec | src/a2_create_narrowband_seds.py:119 | `rstrip()` keeps a prefix and removes only white space |
| PyStrings.Tokens | src/a2_create_narrowband_seds.py:155-156 | every field `split()` returns is non-empty |
| PyStrings.TokensSpaceFree | src/a2_create_narrowband_seds.py:155-156 | no field `split()` returns holds a white-space character |
| PyStrings.TokensOccur | src/a2_create_narrowband_seds.py:155-156 | every field `split()` returns occurs in the line it came from |
| PyStrings.Contains | src/a2_create_narrowband_seds.py:144 | the `in` test of the lookup text (and of the breakpoint tags, line 224): some position of the line starts the text; `ContainsAt` turns a match at a position into this test |
| PyStrings.ContainsAt | src/a2_create_narrowband_seds.py:144 | a match at any position makes the `in` test true |
| PyStrings.FirstMatchPos | src/a2_create_narrowband_seds.py:162 | a text that occurs has a first occurrence, found by the left-to-right scan |
| PyStrings.WordSpec | src/a2_create_narrowband_seds.py:319 | the first field is the maximal run of non-space characters |
| PyStrings.Replace | src/a2_create_narrowband_seds.py:162 | `str.replace`: the occurrences found scanning left to right, without overlap, each replaced; its properties are `ReplaceLength`, `CountZeroIff`, `ReplaceNoMatch`, `ReplaceFirst` and `ReplaceKeepsFirstToken` |
| PyStrings.Count | docs/rst/change_firstline.py:16 | the number of occurrences `replace` rewrites; `ReplaceLength` and `CountZeroIff` state what it measures |
| PyStrings.ReplaceLength | docs/rst/change_firstline.py:16 | `replace` changes the length by `Count * (len(rep) - len(pat))` |
| PyStrings.CountZeroIff | docs/rst/change_firstline.py:16 | `replace` rewrites no occurrence exactly when the pattern does not occur |
| PyStrings.ReplaceNoMatch | docs/rst/change_firstline.py:16 | `replace` of an absent pattern returns the text unchanged |
| PyStrings.ReplaceFromFirstMatch | src/a2_create_narrowband_seds.py:162 | everything before the first occurrence is kept, the occurrence is replaced, the rest is scanned on |
| PyStrings.FirstMatchFrom | src/a2_create_narrowband_seds.py:162 | an occurrence at `p` with none before it is the first match, in the position-by-position form the scan of `replace` follows |
| PyStrings.ReplaceFirst | src/a2_create_narrowband_seds.py:162 | the left-to-right scan copies the text up to the first match, which ends inside the text, replaces it and scans on after it |
| PyStrings.ReplaceKeepsFirstToken | src/a2_create_narrowband_seds.py:162 | replacing a pattern without white space that does not occur inside the first field keeps that first field |
| PyStrings.NatToString | src/a2_create_narrowband_seds.py:224 | `str(n)` is a non-empty digit string without a leading zero, and `str(0)` is `0` |
| PyStrings.NatToStringValue | src/a2_create_narrowband_seds.py:224 | the digits of `str(n)` denote `n` in base 10 |
| LineFiles.LineFile.constructor | src/a2_create_narrowband_seds.py:305 | a new output file holds the given lines |
| LineFiles.LineFile.Append | src/a2_create_narrowband_seds.py:315-321 | `f.write` appends lines and changes nothing else |
| NarrowbandSeds.Position | src/a2_create_narrowband_seds.py:99 | a valid Python index, negative ones counted from the end, names a line of the list |
| NarrowbandSeds.Replaced | src/a2_create_narrowband_seds.py:98-103 | succeeds exactly for the indices Python accepts, raising `IndexError` otherwise; keeps the line count; sets that line to `text.lstrip()`; leaves every other line unchanged |
| NarrowbandSeds.ReplacedIdempotent | src/a2_create_narrowband_seds.py:98-103 | repeating `replace_line` with the same text changes nothing |
| NarrowbandSeds.ReplaceLine | src/a2_create_narrowband_seds.py:92-103 | the file afterwards holds `Replaced` of its old lines, or is unchanged and the call raises `IndexError` |
| NarrowbandSeds.IsCommentIsStripTest | src/a2_create_narrowband_seds.py:119 | the comment test is `line.strip().startswith('#')` |
| NarrowbandSeds.IsComment | src/a2_create_narrowband_seds.py:119 | a comment line is one whose first non-space character is `#`; `IsCommentIsStripTest` shows this is the test `line.strip().startswith('#')` |
| NarrowbandSeds.CommentCount | src/a2_create_narrowband_seds.py:114-124 | the comment count never exceeds the line count |
| NarrowbandSeds.CommentCountSpec | src/a2_create_narrowband_seds.py:117-122 | every line before the count is a comment and the line at the count is not; so the count is the longest leading comment run, and 0 when the first line is data |
| NarrowbandSeds.CommentCountUnique | src/a2_create_narrowband_seds.py:117-122 | that characterisation determines the count |
| NarrowbandSeds.GetNcomLines | src/a2_create_narrowband_seds.py:114-124 | the counting loop with `break` returns the comment count |
| NarrowbandSeds.StepTenths | src/a2_create_narrowband_seds.py:193-197 | `(6960.0 - 5310.0) / 21.0` rounded to one decimal is 78.6, i.e. 786 tenths |
| NarrowbandSeds.ArangeLength | src/a2_create_narrowband_seds.py:203 | `np.arange(start, stop, step)` has the number of values `start + k*step` below `stop`: the last one is below `stop` and one more step reaches it |
| NarrowbandSeds.Breakpoints | src/a2_create_narrowband_seds.py:175-211 | 22 breakpoints: first 5310, last 6960; entry `k < 21` is `int((53100 + 786k)/10)`; strictly increasing |
| NarrowbandSeds.BreakpointsAsDocumented | src/a2_create_narrowband_seds.py:182-184 | the breakpoints are the documented list 5310, 5388, …, 6882, 6960 |
| NarrowbandSeds.LinNums | src/a2_create_narrowband_seds.py:214-230 | every entry is a 1-based input line number |
| NarrowbandSeds.Tag | src/a2_create_narrowband_seds.py:224 | the text searched for a breakpoint: `str(value) + '.0'` |
| NarrowbandSeds.Hits | src/a2_create_narrowband_seds.py:223-226 | the entries the inner loop appends for one line: the line number once per breakpoint whose tag occurs; `HitsSpec` and `HitsCount` state what it holds |
| NarrowbandSeds.Matching | src/a2_create_narrowband_seds.py:223-224 | the breakpoints (by position) whose tag occurs in a line |
| NarrowbandSeds.HitsCount | src/a2_create_narrowband_seds.py:223-226 | a line contributes its number once per breakpoint whose tag occurs in it |
| NarrowbandSeds.HitsSpec | src/a2_create_narrowband_seds.py:223-226 | one line contributes its number exactly when some breakpoint's `"<bp>.0"` occurs in it |
| NarrowbandSeds.LinNumsSpec | src/a2_create_narrowband_seds.py:214-230 | the line numbers ascend, and a number is listed exactly when some breakpoint tag occurs on that line |
| NarrowbandSeds.LinNumsCount | src/a2_create_narrowband_seds.py:214-230 | each line number is listed as many times as there are breakpoints whose tag occurs on that line |
| NarrowbandSeds.GetLinNums | src/a2_create_narrowband_seds.py:214-230 | the nested loops with `append` compute `LinNums` of the breakpoints |
| NarrowbandSeds.LastMatch | src/a2_create_narrowband_seds.py:142-146 | the loop's last match is the index of an input line that contains the lookup text |
| NarrowbandSeds.LastMatchSpec | src/a2_create_narrowband_seds.py:142-146 | the scan finds the last line containing the lookup text, and finds none only when no line contains it |
| NarrowbandSeds.NormalizingLine | src/a2_create_narrowband_seds.py:127-170 | with no matching line the split raises `IndexError`; the call succeeds exactly when there is a last matching line, it has two fields and its flux converts; a last matching line with fewer than two fields raises `IndexError`, and a flux that does not convert raises `ValueError`; on success the index is that last matching line and the result is that line with every occurrence of its flux text replaced by the scaled flux |
| NarrowbandSeds.GetNormalizingLine | src/a2_create_narrowband_seds.py:138-170 | the scanning loop, split and replace compute `NormalizingLine` |
| NarrowbandSeds.NormalizeKeepsPrefix | src/a2_create_narrowband_seds.py:155-162 | when the flux text first occurs at position `p`, the text before `p` is unchanged, and the rest has every occurrence of the flux rewritten |
| NarrowbandSeds.NormalizeKeepsWave | src/a2_create_narrowband_seds.py:155-162 | when the flux text does not occur inside the wavelength field, the normalised line keeps that wavelength as its first field |
| NarrowbandSeds.NormalizeCanAlterWave | src/a2_create_narrowband_seds.py:162 | the row `5000.0 5000.0` becomes `50.0 50.0`: `replace` can change the wavelength too |
| NarrowbandSeds.FirstFieldIsFirstToken | src/a2_create_narrowband_seds.py:319-320 | `row[0]` exists exactly when `split()` is non-empty |
| NarrowbandSeds.FirstField | src/a2_create_narrowband_seds.py:319-320 | `line.split()[0]`, or nothing when the line has no field; `FirstFieldIsFirstToken` ties it to `split()` |
| NarrowbandSeds.ZeroLine | src/a2_create_narrowband_seds.py:318-320 | a data row becomes its first field, eight spaces and `0.0`; a row with no field raises `IndexError` |
| NarrowbandSeds.ZeroLines | src/a2_create_narrowband_seds.py:317-321 | the rows appended for every line not starting with `#`; `ZeroLinesSkipComments` and `ZeroLinesOfData` state what it holds |
| NarrowbandSeds.ZeroFilled | src/a2_create_narrowband_seds.py:315-321 | an output file before any line is replaced: the comment lines, then the zero rows; `ZeroFilledContents` states its content |
| NarrowbandSeds.ZeroLinesSkipComments | src/a2_create_narrowband_seds.py:317-318 | lines starting with `#` produce no zero row |
| NarrowbandSeds.ZeroLinesOfData | src/a2_create_narrowband_seds.py:317-321 | data lines give one zero row each, in order |
| NarrowbandSeds.ZeroFilledContents | src/a2_create_narrowband_seds.py:315-321 | a well-formed input's zero-filled copy has the input's length, keeps the comment lines and zeroes every data row |
| NarrowbandSeds.PatchSpec | src/a2_create_narrowband_seds.py:325-327 | a `replace_line` loop over `lo .. hi-1` succeeds exactly when the range is empty or inside the file; it copies `data[k].lstrip()` into the range and leaves the other rows alone |
| NarrowbandSeds.Patch | src/a2_create_narrowband_seds.py:325-327 | the copy loop as a chain of `replace_line` calls over `lo .. hi-1`, stopping at the first error; `PatchSpec` states its result |
| NarrowbandSeds.PatchOverPatch | src/a2_create_narrowband_seds.py:325-334 | patching `lo .. hi2-1` over a patch of `lo .. hi-1` equals patching `lo .. hi2-1` once |
| NarrowbandSeds.CopyBand | src/a2_create_narrowband_seds.py:325-334 | the copy loop of band `i` and, for band 20, the extra loop; `CopyBandContents` states its result |
| NarrowbandSeds.NarrowCopied | src/a2_create_narrowband_seds.py:311-334 | narrowband `i` before its normalisation row: `lin_nums[i + 1]` must exist, then the zero-filled file with band `i` copied; `NarrowCopiedContents` states its result |
| NarrowbandSeds.Narrowband | src/a2_create_narrowband_seds.py:303-336 | narrowband `i` with its normalisation row; `NarrowbandContents` states its rows |
| NarrowbandSeds.NarrowbandFile | src/a2_create_narrowband_seds.py:262-336 | narrowband `i` of an input, from its comment count, line numbers and normalisation line; `WriteNarrowbandSeds` writes it and `NormalizationWins` states its normalisation row |
| NarrowbandSeds.CopyBroad | src/a2_create_narrowband_seds.py:362-366 | the broadband copy loop and its extra row; `CopyBroadContents` states its result |
| NarrowbandSeds.BroadCopied | src/a2_create_narrowband_seds.py:349-366 | the broadband before its normalisation row; `BroadCopiedContents` states its result |
| NarrowbandSeds.Broadband | src/a2_create_narrowband_seds.py:349-370 | the broadband with its normalisation row; `BroadbandContents` states its rows |
| NarrowbandSeds.BroadbandFile | src/a2_create_narrowband_seds.py:339-370 | the broadband of an input; `WriteBroadbandSed` writes it and `BroadbandIsUnion` relates it to the narrowbands |
| NarrowbandSeds.CopyBandIsOnePatch | src/a2_create_narrowband_seds.py:325-334 | the last band's two loops copy the closed range once |
| NarrowbandSeds.CopyBandContents | src/a2_create_narrowband_seds.py:325-334 | band `i`'s loops copy exactly the rows of band `i` |
| NarrowbandSeds.NarrowCopiedContents | src/a2_create_narrowband_seds.py:311-334 | before its normalisation row, narrowband `i` holds band `i` copied and zero rows elsewhere |
| NarrowbandSeds.NarrowbandContents | src/a2_create_narrowband_seds.py:303-336 | narrowband `i` has the input's length; row `k` is the normalisation row if `k` is its index, else the copied row if `k` is in band `i`, else the comment or zero row |
| NarrowbandSeds.CopyBroadContents | src/a2_create_narrowband_seds.py:362-366 | the broadband loop and extra row fail with `NameError` exactly when the loop is empty, and otherwise copy the closed range |
| NarrowbandSeds.BroadCopiedContents | src/a2_create_narrowband_seds.py:349-366 | before its normalisation row, the broadband exists exactly when `lin_nums[0] < lin_nums[21]` (else `j` is unbound) and holds the closed range copied |
| NarrowbandSeds.BroadbandContents | src/a2_create_narrowband_seds.py:339-370 | the broadband fails only with `NameError`; row `k` is the normalisation row, the copied row, or the comment or zero row, in that precedence |
| NarrowbandSeds.AppendZeroLines | src/a2_create_narrowband_seds.py:317-321 | the zero-fill loop appends exactly `ZeroLines`, or raises its `IndexError` |
| NarrowbandSeds.PatchLines | src/a2_create_narrowband_seds.py:325-327 | a loop of `replace_line` calls leaves exactly `Patch` of the old lines, or raises its error |
| NarrowbandSeds.WriteNarrowband | src/a2_create_narrowband_seds.py:304-336 | one pass of the loop creates a new file holding `Narrowband`, or raises its error |
| NarrowbandSeds.WriteNarrowbands | src/a2_create_narrowband_seds.py:298-336 | the `for i in range(nfiles)` loop creates 21 distinct new files, file `b` holding `Narrowband` of band `b`, or stops at the first band that fails with that band's error |
| NarrowbandSeds.WriteNarrowbandSeds | src/a2_create_narrowband_seds.py:262-336 | writes 21 distinct new files, file `b` holding narrowband `b`; on failure the files before the failing band are complete and the error is that band's |
| NarrowbandSeds.WriteBroadband | src/a2_create_narrowband_seds.py:347-370 | creates a new file holding `Broadband`, or raises its error |
| NarrowbandSeds.WriteBroadbandSed | src/a2_create_narrowband_seds.py:339-370 | writes the broadband file of the input, or raises the script's error |
| NarrowbandSeds.BandsPartition | src/a2_create_narrowband_seds.py:325-366 | for strictly increasing line numbers a row is in the broadband range exactly when it is in some band, and no row is in two bands |
| NarrowbandSeds.BroadbandIsUnion | src/a2_create_narrowband_seds.py:303-370 | the broadband agrees with narrowband `b` on band `b`, and with every narrowband outside the broadband range and at the normalisation row |
| NarrowbandSeds.NormalizationWins | src/a2_create_narrowband_seds.py:336-370 | in every output that is written, the row at the normalisation index is the normalisation line |
| NarrowbandSeds.BandSpansAsDocumented | src/a2_create_narrowband_seds.py:265-289 | with the documented line numbers (wavelength less 999), band `i` copies wavelengths `bp[i] .. bp[i+1]-1`, and band 20 copies 6882 through 6960 |
| ChangeFirstLine.FixFirstLine | docs/rst/change_firstline.py:15-18 | an empty file raises `IndexError`; otherwise the line count and every line after the first are unchanged |
| ChangeFirstLine.FirstLineShrinks | docs/rst/change_firstline.py:16 | the first line shrinks by 6 for every occurrence of `module` removed |
| ChangeFirstLine.FixUnchangedIff | docs/rst/change_firstline.py:16-18 | a file is written back unchanged exactly when its first line does not contain `module` |
| ChangeFirstLine.ModuleCanReform | docs/rst/change_firstline.py:16 | `modmoduleule` becomes `module`: deleting can form a new occurrence |
| ChangeFirstLine.ReplaceFirstLine | docs/rst/change_firstline.py:12-19 | each file before the first empty one is rewritten by `FixFirstLine`; later files are untouched; an empty file stops the loop with `IndexError` |

## Left out

- Files are line lists. A file written and read back is assumed to give the
  same list. `replace_line` re-reads an output file while the writer's append
  handle may still hold buffered text (src/a2_create_narrowband_seds.py:305-327,
  349-366). The model assumes the zero-filled lines are all in the file before
  the first patch.
- An empty line, or a line without a final newline, would merge with the next
  one when read back. That happens with an `lstrip()` that leaves nothing, or
  with a last input line lacking its newline. The model keeps such lines
  separate.
- `float(flux) / 100.0` and `str(fluxn)` are floating point. They are the
  parameter `scale`, which gives the new flux text, or nothing where `float`
  fails (`ValueError`).
- `np.arange` over floats, and `round`:
  - the breakpoints are computed in integer tenths: step 786, 21 steps;
  - `int()` truncation is integer division;
  - float rounding error is not modelled.
- `get_data` is not modelled. It only reads the file. `get_ncom_lines`,
  `get_normalizing_line` and `get_lin_nums` re-read the same input; the model
  passes them the same line list.
- Not modelled: the file system (`open`, `glob`, `replace_outdir`, output
  names), `print` logging, `check_data` and `main`. The file list of
  `replace_first_line` is a parameter, in `glob` order.
- A file left half-written when an exception stops a writer is not described.
  `WriteNarrowbandSeds` returns only the completed files. `WriteNarrowband`
  and `WriteBroadband` return only the error.
- NarrowbandSeds.NormalizingLine: states what the code does.
  `str.replace` rewrites every occurrence of the flux text. The wavelength is
  unchanged when the flux text does not occur inside the wavelength field
  (`NormalizeKeepsWave`). `NormalizeCanAlterWave` gives an input where it
  changes.
- NarrowbandSeds.BroadbandIsUnion: assumes strictly increasing line numbers.
  The script never checks this, and `get_lin_nums` can list a line twice.
- The other scripts are not part of this model:
  - interpolation (`a0_interpolate_flux.py`);
  - text templates (`a1`, `a3`);
  - running the simulator (`a4`);
  - unzipping (`a5`);
  - FITS sums (`b1_sum_narrowbands.py`);
  - plotting (`c1`).
