# Gaussian job-file scripts, modelled in Dafny

This project models the text processing at the core of a small set of Python
scripts that prepare and post-process Gaussian quantum-chemistry jobs:

- **Log scanners** (`GaussianScripts/GaussianAnalyse.py`, copied in
  `GaussianScripts/GaussianScripts.py`):
  - `readOutput` accepts a log only when its last line reports normal termination.
  - `performanceStats` reads the core count and the elapsed time from the last
    matching lines.
  - `energyStats` reads the SCF energy of the last `SCF Done` line.
  - The two writers build the performance and energy tables row by row.
- **Input generation** (`GaussianScripts/GaussianInputGen.py`, copied in
  `GaussianScripts/GaussianScripts.py` and `GaussianInputGen/GaussianInputGenFunctions.py`):
  - numbering of `.pdb` files and construction of titles and input names;
  - `readPDB`, which builds one atom line per `ATOM` line;
  - `writeGaussianInput` with its fixed section order;
  - `generateGaussianInput` over the zip of the three lists.
- **Optimisation continuation** (`generateGaussianOpt` in
  `GaussianScripts/GaussianInputGen.py`):
  - selection of the N lowest-energy runs;
  - detection of the charge/multiplicity line;
  - the two rewrites, `keep_geometry=True` and `keep_geometry=False`.

A file is the sequence of its lines, as `readlines()` returns them, each line
keeping its newline. The file system is a map from path to lines
(`LogParser.FileSystem`). Files written are returned as values: rows handed to
the csv writer, or `InputGen.FileWrite` (name and lines). Every `assert` or
exception of the scripts that stops a run becomes a `Failure` of a
`Wrappers.Result` with an `Error` naming the cause. Each writer returns the
output produced before the failure, because the scripts open their output
before the loop.

The modules, one per file:

- `Wrappers`: `Option`, `Result` and `Error`.
- `Text`: the Python string operations relied on, including `in`, `split()`,
  `isnumeric()`, `replace`, `str(n)` and `float()` of a digit string.
- `Scans`: the generic "loop over lines, stop at the first raise" fold.
- `LogParser`, `StatsTables`, `InputGen`, `OptRewriter`: the scripts.

Each imperative routine is a `method` with loops, proved equal to a
specification function. Lemmas then state what that function promises:
- last match wins;
- succeed iff every line is well-formed;
- one output per matching line, in order;
- the charge/multiplicity line written by `writeGaussianInput` is the one
  `generateGaussianOpt` detects.

The three copies of the input-generation code behave the same except for the
title line. `GaussianScripts/GaussianInputGen.py` writes `Title - {title}`, and
the other two copies write the bare title. `InputGen.TitleStyle` (`Labelled` or
`Bare`) selects between them, so one set of members models all three copies.
The table below cites the `GaussianScripts/GaussianInputGen.py` and
`GaussianScripts/GaussianAnalyse.py` versions, except for the two table writers,
which it cites in `GaussianScripts/GaussianScripts.py` (see "Left out"). The same
members model the copies:
- `GaussianScripts/GaussianScripts.py`:
  - 16-35 (naming)
  - 44-58 (readPDB)
  - 66-73 (writeGaussianInput)
  - 80-91 (generateGaussianInput)
  - 131-137 (readOutput)
  - 142-166 (performanceStats)
  - 193-204 (energyStats)
- `GaussianInputGen/GaussianInputGenFunctions.py`:
  - 15-34 (naming)
  - 43-57 (readPDB)
  - 65-72 (writeGaussianInput)
  - 79-88 (generateGaussianInput)

The elapsed time is modelled exactly as written: days count 12 hours
(`days * 12`), although a day has 24. `LogParser.ElapsedHours` keeps that
factor, and `LogParser.ElapsedExample` shows 1 day 2 h 30 min 0 s giving 14.5
hours.

## Model

| member | source | states |
|---|---|---|
| LogParser.ReadOutput | GaussianScripts/GaussianAnalyse.py:31-37 | succeeds iff the file exists, is non-empty and its last line contains "Normal termination", and then returns the lines unchanged; a missing file and an empty file fail with their own errors |
| LogParser.TimeTokenShape | GaussianScripts/GaussianAnalyse.py:58-61 | a time token passes `replace('.', '', 1).isnumeric()` iff it is digits with at most one '.' and at least one digit (so no sign) |
| LogParser.TimeValue | GaussianScripts/GaussianAnalyse.py:63 | `float()` of an accepted time token is never negative |
| LogParser.ElapsedOfTokens | GaussianScripts/GaussianAnalyse.py:54-63 | the hours computed from tokens 2, 4, 6 and 8 of an accepted elapsed-time line are never negative |
| LogParser.ElapsedExample | GaussianScripts/GaussianAnalyse.py:53-63 | the line "Elapsed time: 1 days 2 hours 30 minutes 0.0 seconds." is accepted and gives 14.5 hours |
| LogParser.PerformanceOf | GaussianScripts/GaussianAnalyse.py:42-66 | a successful result has an all-digit core count and a non-negative elapsed time |
| LogParser.PerfScanLastMatch | GaussianScripts/GaussianAnalyse.py:48-63 | after the loop: failure iff some line is malformed; otherwise the core count and elapsed time come from the last matching lines, or are unset when there is none |
| LogParser.PerformanceFromLastLines | GaussianScripts/GaussianAnalyse.py:48-66 | performanceStats succeeds iff every marker line is well-formed and both markers occur; the core count is token 4 of the last core-count line, the elapsed time is computed from the last elapsed-time line |
| LogParser.PerformanceNeedsBothMarkers | GaussianScripts/GaussianAnalyse.py:48-66 | a log lacking the core-count line or the elapsed-time line fails (unbound local), never yields a default |
| LogParser.PerformanceStats | GaussianScripts/GaussianAnalyse.py:42-66 | the loop with its overwritten locals computes exactly PerformanceOf |
| LogParser.EnergyTokenShape | GaussianScripts/GaussianAnalyse.py:102 | an energy token passes the dot-then-minus check iff it is digits plus at most one '.' and at most one '-', with at least one digit |
| LogParser.EnergyScanLastMatch | GaussianScripts/GaussianAnalyse.py:99-103 | after the loop: failure iff some SCF line is malformed; otherwise the kept energy is token 4 of the last SCF line, or unset |
| LogParser.EnergyFromLastLine | GaussianScripts/GaussianAnalyse.py:93-104 | energyStats succeeds iff every SCF line is well-formed and one exists, and returns token 4 of the last one |
| LogParser.EnergyStats | GaussianScripts/GaussianAnalyse.py:93-104 | the loop computes exactly EnergyOf |
| StatsTables.WritePerformanceStats | GaussianScripts/GaussianScripts.py:171-186 | one header row, then row i+1 is [file, cores, hours, cores*hours] of the i-th file in input order; no error iff every file was processed; otherwise the error is that of the first file that failed, with the earlier rows kept |
| StatsTables.WriteEnergyStats | GaussianScripts/GaussianScripts.py:209-225 | the file-count row (count = number of files) and the column-name row, then one [file, energy] row per file in input order; the first failing file ends the table with its error |
| InputGen.GenerateInputNames | GaussianScripts/GaussianInputGen.py:18-37 | the paths are exactly the joined '.pdb' files of the walk in discovery order; the three lists have equal length; the k-th (from 1) has input name `{prefix}-{k}.com` and title `{stem}-{prefix}-{k}` |
| InputGen.InputNamesDistinct | GaussianScripts/GaussianInputGen.py:33 | different counters give different input names |
| InputGen.TitleStemHasNoSlash | GaussianScripts/GaussianInputGen.py:31 | no '/' is left in the path part of a title |
| InputGen.PdbPathsArePdb | GaussianScripts/GaussianInputGen.py:25-29 | every returned path contains '.pdb' |
| InputGen.PadLeft | GaussianScripts/GaussianInputGen.py:58 | right-alignment in a 20-column field keeps the value as the suffix and pads only short values, with blanks only |
| InputGen.AtomLine | GaussianScripts/GaussianInputGen.py:49-56 | an ATOM line yields an atom line iff it has at least eight tokens and all three coordinates parse; otherwise the error is a missing token or an unreadable coordinate |
| InputGen.AtomLineFields | GaussianScripts/GaussianInputGen.py:50-58 | for any formatter whose renderings are non-empty and blank-free, splitting a written atom line gives back exactly four fields: `{atom}(PDBName=…,ResName=…,ResNum=…)` built from the last token and tokens 2–4, then the three coordinates |
| InputGen.ReadPdbOnePerAtomLine | GaussianScripts/GaussianInputGen.py:46-58 | readPDB succeeds iff every 'ATOM' line is well-formed, and then gives exactly one atom line per 'ATOM' line, in file order, none for other lines |
| InputGen.ReadPDB | GaussianScripts/GaussianInputGen.py:40-60 | the appending loop computes exactly PdbAtomsOf; a missing file fails |
| InputGen.GaussianInput | GaussianScripts/GaussianInputGen.py:63-77 | the atom lines are written unchanged and in order after seven header lines, and the file ends with one blank line, so it has eight lines more than there are atoms |
| InputGen.GaussianInputLayout | GaussianScripts/GaussianInputGen.py:69-73 | the seven header lines exactly: `%nprocshared={ncores} `, `%chk=` with the input name whose every 'com' becomes 'chk', `# {method}/{basis_set} {keywords} `, a blank, the title line, a blank, `{charge} {multiplicity} ` |
| InputGen.ChkNameExample | GaussianScripts/GaussianInputGen.py:70 | the checkpoint of `run-1.com` is `run-1.chk` |
| InputGen.GenerateGaussianInput | GaussianScripts/GaussianInputGen.py:86-93 | one file per element of the zip (so none for an empty list), the i-th named by the i-th input name and laid out from the i-th structure file; the first unreadable structure file stops the run |
| InputGen.Min3 | GaussianInputGen/GaussianInputGenFunctions.py:85 | the zip length is the least of the three lengths |
| InputGen.GeneratedNamesDistinct | GaussianScripts/GaussianInputGen.py:29-33 | files generated from the numbered names never share a name |
| OptRewriter.Insert | GaussianScripts/GaussianInputGen.py:116 | inserting a row into an ascending table keeps it ascending and adds exactly that row |
| OptRewriter.SortByEnergy | GaussianScripts/GaussianInputGen.py:116 | the sorted table is ascending by energy and a permutation of the input |
| OptRewriter.SelectOutputs | GaussianScripts/GaussianInputGen.py:116-118 | selection succeeds iff the slice `[:N]` (Python semantics, negative N counts from the end) is non-empty, failing with NoCandidates otherwise; it has the slice's length |
| OptRewriter.SelectionIsLowest | GaussianScripts/GaussianInputGen.py:116-118 | the table splits into the selected rows and the rest, and no row of the rest has a lower energy than a selected row |
| OptRewriter.SelectionExample | GaussianScripts/GaussianInputGen.py:116-118 | from runs a.log (-100.123456) and b.log (-120.654321), N = 1 selects b.log |
| OptRewriter.OptNamesDistinct | GaussianScripts/GaussianInputGen.py:123 | continuation file i is `{prefix}-{i+1}.com` and no two share a name |
| OptRewriter.ChargeMultOf | GaussianScripts/GaussianInputGen.py:131-137 | the detected line is the last line with at least two tokens that are all digits once every '-' is removed; with no such line the value left by an earlier file is kept |
| OptRewriter.DetectInLine | GaussianScripts/GaussianInputGen.py:133-137 | the token loop with its counter takes the line iff it has at least two integer-like tokens |
| OptRewriter.FindChargeMultiplicity | GaussianScripts/GaussianInputGen.py:131-137 | the nested loop computes exactly ChargeMultOf |
| OptRewriter.RewriteKeepGeometry | GaussianScripts/GaussianInputGen.py:142-150 | same number of lines in the same order; a line containing '#' loses its newlines and gains the optimisation keywords, otherwise a line containing 'Title' gains the annotation, every other line is copied |
| OptRewriter.RewriteNewGeometry | GaussianScripts/GaussianInputGen.py:156-183 | the flag loop computes exactly NewGeometryFile: '%' lines kept, then '#' and 'Title' lines extended, in that priority, others dropped; the charge/multiplicity line and a blank appended once iff all three kinds were met; an unbound charge/multiplicity value fails, the header lines having been written; the geometry branch never runs |
| OptRewriter.ContinueRun | GaussianScripts/GaussianInputGen.py:121-183 | one selected run: the charge/multiplicity value is updated from its input, and the continuation file is OptInput (missing input fails; keep_geometry=False also requires a normally terminated log); the file left behind is the whole file, the header lines alone after an unbound charge/multiplicity value, or none when the run failed before opening it |
| OptRewriter.UnboundLeavesHeader | GaussianScripts/GaussianInputGen.py:161-174 | a run that fails on the unbound charge/multiplicity value has keep_geometry=False and no value in force, and leaves the file a bound value would have given minus its charge/multiplicity line and final blank |
| OptRewriter.ContinueAll | GaussianScripts/GaussianInputGen.py:121-183 | file i is `{prefix}-{i+1}.com` as run i left it, built with the charge/multiplicity value carried over all earlier inputs; no error iff every selected run succeeded; otherwise every run before the first failing one succeeded, the error is that run's, and its file is included, cut short, exactly when the error is the unbound charge/multiplicity value |
| OptRewriter.GenerateGaussianOpt | GaussianScripts/GaussianInputGen.py:101-188 | an empty selection writes nothing and fails with NoCandidates; otherwise the selected runs are continued in ascending energy order as ContinueAll states, partial file of a failing run included |
| OptRewriter.ChargeLineDetected | GaussianScripts/GaussianInputGen.py:73 | a charge/multiplicity line written from integer-like values splits into exactly those two values and is detected |
| OptRewriter.ChargeMultOfGenerated | GaussianScripts/GaussianInputGen.py:131-137 | reading back a generated input detects the line it was written with, whatever value an earlier file left, when no atom line holds two integer-like tokens |
| OptRewriter.NonFiniteNotIntLike | GaussianScripts/GaussianInputGen.py:54-56 | the renderings `inf`, `-inf` and `nan` are not integer-like tokens |
| OptRewriter.AtomLineNotChargeMult | GaussianScripts/GaussianInputGen.py:58 | an atom line readPDB writes is never taken for the charge/multiplicity line, for any formatter whose renderings are blank-free tokens each holding a character other than a digit or '-' |
| OptRewriter.ReadPdbNoChargeMult | GaussianScripts/GaussianInputGen.py:46-58 | no atom line of a readable structure file is a charge/multiplicity line |
| OptRewriter.GeneratedInputChargeMult | GaussianScripts/GaussianInputGen.py:131-137 | an input written from a readable structure file is read back with exactly the charge and multiplicity it was written with |
| OptRewriter.KeepGeometryOnGenerated | GaussianScripts/GaussianInputGen.py:142-150 | on a generated input, keep_geometry=True changes only the route line and the title line; all other lines, atoms included, are copied. Stated for a core count and input name holding neither '#' nor 'T' (a sufficient condition for holding no "Title"), a title without '#', and atom lines holding neither '#' nor "Title" |
| OptRewriter.GeneratedHeader | GaussianScripts/GaussianInputGen.py:156-170 | on a generated input the header pass meets all three sections and keeps the two '%' lines and the extended route and title lines |
| OptRewriter.NewGeometryOnGenerated | GaussianScripts/GaussianInputGen.py:156-183 | on a generated input, keep_geometry=False writes exactly six lines (the two '%' lines, the extended route and title lines, the detected charge/multiplicity line, a blank) and no atom line |

## Left out

- Directory traversal (`os.walk`, `findGaussianOutput`) is I/O. The walk is a
  given sequence of (directory, file names), and `os.path.join` is modelled for
  relative names only. `dir_counter` is only printed and is not modelled.
- File opening, reading and writing are I/O. Files are entries of a map from
  path to lines, and files written are returned as values. The `with` blocks,
  `print` calls and progress messages are not modelled.
- Output text is modelled line by line. A single `write` that holds two
  newlines (the route line and the title line of `writeGaussianInput`) is
  modelled as the two lines `readlines()` returns for it. This is exact only
  while the values written contain no newline of their own.
- InputGen.AtomLine: `'{:.8f}'.format(float(t))` is floating-point formatting.
  It is a parameter `fmt` (None when `float` rejects the token). The lemmas
  that need it assume only that every rendering is one non-empty token without
  blanks, holding a character other than a digit or '-' (the '.' of a finite
  value, a letter of `inf` or `nan`).
- StatsTables.WritePerformanceStats: `round(…, 4)` is left out, so rows hold
  the unrounded hours and core-hours.
- The csv writer's quoting and number formatting are not modelled. A row is the
  list of values handed to `writerow`.
- `pd.read_csv` is not modelled. `generateGaussianOpt` takes the energy table
  as a given sequence of (file name, energy). pandas would use the first row
  of the file `writeEnergyStats` writes (the file-count row) as the header, so
  the column sorted by would not be found. The table is taken as already
  parsed, with its energy column.
- OptRewriter.SortByEnergy: the result is some ascending permutation. The
  order pandas' default unstable sort gives to equal energies is not
  modelled.
- `readOptimizedGeom` is imported by `GaussianScripts/GaussianInputGen.py` but
  defined in no file, so that import fails. The model treats the import as if
  it succeeded. The call `readOptimizedGeom(...)` at line 154 is likewise
  assumed to return without raising, so with keep_geometry=False the
  continuation file is opened whenever the run's log terminated normally. Its
  result is unused, because the branch that would write it can never run.
- OptRewriter.ContinueAll, OptRewriter.GenerateGaussianOpt: every run reads
  its input from the file system as it was before the first run. A
  continuation file written by an earlier run is never read back by a later
  one, and paths are compared as strings. The script writes each continuation
  file before the next run opens its input (lines 128, 143 and 161). So when a
  continuation name such as `run-1.com` is the same file on disk as a later
  run's input (`./run-1.com`), the script reads the rewritten file, and the
  model does not capture that.
- The `except NameError` blocks never catch a missing file or an unbound value,
  so those cases are plain failures in the model.
- `isnumeric()` is modelled for ASCII digits only. `split()` is modelled for
  the ASCII characters `isspace()` accepts (including 0x1C to 0x1F). Other
  Unicode digits and separators are not modelled.
- `float()` and the arithmetic of the elapsed-time formula are binary64 in
  Python. The model computes exact rationals (`real`), so it does not capture
  the rounding of `/ 60` and `/ 3600` or the overflow of a very long digit
  string to `inf`.
- LogParser.PerformanceFromLastLines: the elapsed time it states is the exact
  value, not the binary64 value Python computes. The worked example of
  LogParser.ElapsedExample, 14.5 hours, is exact in both.
- `GaussianScripts/GaussianAnalyse.py` imports neither `csv` nor `os`. As
  written, its `writePerformanceStats` and `writeEnergyStats` truncate the csv
  file, then fail with a NameError at `csv.writer` (lines 76 and 114) before
  writing any row; its `findGaussianOutput` fails the same way at `os.walk`.
  StatsTables.WritePerformanceStats and StatsTables.WriteEnergyStats follow
  the copies in `GaussianScripts/GaussianScripts.py` (lines 171-186 and
  209-225), which import both modules.
- The stub `def generateGaussianOpt()` in `GaussianScripts/GaussianScripts.py`
  is not valid Python and has nothing to model.
- The driver scripts (`GenerateInput*.py`, `GenerateOpt.py`,
  `GenerateFreq.py`, `GaussianInputGen/GaussianInputGen.py`) only make
  top-level calls, some to names that do not exist. They are not modelled.
- Error messages are not modelled. Each failure carries only its cause (`Error`).
