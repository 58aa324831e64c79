/** generateGaussianOpt of GaussianScripts/GaussianInputGen.py: picks the N
    lowest-energy single-point runs from the energy table, finds each run's
    input file, detects its charge/multiplicity line and writes a new input
    that continues the calculation, either keeping the geometry lines
    (keep_geometry=True) or keeping only the header sections and the
    charge/multiplicity line (keep_geometry=False). */
module OptRewriter {
  import opened Wrappers
  import opened Text
  import opened LogParser
  import opened InputGen

  // ---------------------------------------------------------------------------
  // Selection

  /** One row of the energy table: output file name and SCF energy. */
  type EnergyRow = (string, real)

  predicate SortedByEnergy(rows: seq<EnergyRow>) {
    forall i, j | 0 <= i < j < |rows| :: rows[i].1 <= rows[j].1
  }

  function Insert(row: EnergyRow, sorted: seq<EnergyRow>): (r: seq<EnergyRow>)
    requires SortedByEnergy(sorted)
    ensures SortedByEnergy(r)
    ensures multiset(r) == multiset(sorted) + multiset{row}
    ensures |r| == |sorted| + 1 && (r[0] == row || (sorted != [] && r[0] == sorted[0]))
  {
    if sorted == [] || row.1 <= sorted[0].1 then
      [row] + sorted
    else
      var rest := Insert(row, sorted[1..]);
      assert sorted == [sorted[0]] + sorted[1..];
      [sorted[0]] + rest
  }

  /** `sort_values` on the energy column: ascending, a permutation of the table. */
  function SortByEnergy(rows: seq<EnergyRow>): (r: seq<EnergyRow>)
    ensures |r| == |rows| && SortedByEnergy(r)
    ensures multiset(r) == multiset(rows)
  {
    if rows == [] then []
    else
      assert rows == [rows[0]] + rows[1..];
      Insert(rows[0], SortByEnergy(rows[1..]))
  }

  /** Length of the Python slice `s[:n]` of a sequence of length `len`; a
      negative `n` counts from the end. */
  function SliceLen(len: nat, n: int): (k: nat)
    ensures k <= len
  {
    if n >= 0 then (if n <= len then n else len)
    else if len + n >= 0 then len + n else 0
  }

  function Names(rows: seq<EnergyRow>): (r: seq<string>)
    ensures |r| == |rows| && forall i | 0 <= i < |rows| :: r[i] == rows[i].0
  {
    seq(|rows|, i requires 0 <= i < |rows| => rows[i].0)
  }

  /** The selection of generateGaussianOpt: sort ascending by energy, take the
      first `n` file names (Python slice semantics), and fail on an empty result. */
  function SelectOutputs(table: seq<EnergyRow>, n: int): (r: Result<seq<string>>)
    ensures r.Success? <==> SliceLen(|table|, n) > 0
    ensures r.Failure? ==> r.error == NoCandidates
    ensures r.Success? ==> |r.value| == SliceLen(|table|, n)
  {
    var s := SortByEnergy(table);
    var k := SliceLen(|table|, n);
    if k == 0 then Failure(NoCandidates) else Success(Names(s[..k]))
  }

  /** Cutting an ascending ordering anywhere leaves no lower energy after the cut. */
  lemma SortedCut(s: seq<EnergyRow>, k: nat)
    requires SortedByEnergy(s) && k <= |s|
    ensures forall x, y | x in s[..k] && y in s[k..] :: x.1 <= y.1
  {
    forall x, y | x in s[..k] && y in s[k..]
      ensures x.1 <= y.1
    {
      var i :| 0 <= i < k && s[..k][i] == x;
      var j :| 0 <= j < |s| - k && s[k..][j] == y;
      assert s[i] == x && s[k + j] == y;
    }
  }

  /** `chosen` and `rest` share out the rows of `table`, and no row of `rest`
      has a lower energy than a row of `chosen`. */
  predicate LowestSplit(table: seq<EnergyRow>, chosen: seq<EnergyRow>, rest: seq<EnergyRow>) {
    && multiset(chosen) + multiset(rest) == multiset(table)
    && forall x, y | x in chosen && y in rest :: x.1 <= y.1
  }

  /** The selection splits the table in two: the selected runs, and the rest,
      none of which has a lower energy than any selected run. */
  lemma SelectionIsLowest(table: seq<EnergyRow>, n: int)
    requires SelectOutputs(table, n).Success?
    ensures exists chosen, rest :: LowestSplit(table, chosen, rest) && Names(chosen) == SelectOutputs(table, n).value
  {
    var s := SortByEnergy(table);
    var k := SliceLen(|table|, n);
    assert s == s[..k] + s[k..];
    assert multiset(s[..k]) + multiset(s[k..]) == multiset(table);
    SortedCut(s, k);
    assert LowestSplit(table, s[..k], s[k..]);
  }

  /** Two normally terminated runs at -100.123456 and -120.654321 Hartree:
      optimising one conformation picks the lower, b.log. */
  lemma SelectionExample()
    ensures SelectOutputs([("a.log", -100.123456), ("b.log", -120.654321)], 1) == Success(["b.log"])
  {
    var t := [("a.log", -100.123456), ("b.log", -120.654321)];
    assert t[1..] == [("b.log", -120.654321)];
    assert SortByEnergy(t[1..]) == [("b.log", -120.654321)];
    assert SortByEnergy(t) == [("b.log", -120.654321), ("a.log", -100.123456)];
    assert SortByEnergy(t)[..1] == [("b.log", -120.654321)];
    assert Names([("b.log", -120.654321)]) == ["b.log"];
  }

  /** The input file of a run: every '.log' in its output name becomes '.com'. */
  function SourceInput(outputName: string): string {
    ReplaceAll(outputName, ".log", ".com")
  }

  /** The name of the i-th (from 0) continuation file. */
  function OptName(prefix: string, i: nat): string {
    prefix + "-" + NatToString(i + 1) + ".com"
  }

  // ---------------------------------------------------------------------------
  // Charge and multiplicity

  /** A token that is all digits once every '-' is deleted. */
  predicate IntLike(t: string) {
    IsNumeric(DeleteAll(t, '-'))
  }

  function CountIntLike(toks: seq<string>): nat {
    if toks == [] then 0
    else CountIntLike(toks[..|toks| - 1]) + (if IntLike(toks[|toks| - 1]) then 1 else 0)
  }

  /** A line the detection loop takes for the charge/multiplicity line. */
  predicate IsChargeMultLine(line: string) {
    CountIntLike(Split(line)) >= 2
  }

  /** The charge/multiplicity line after reading `lines`: the last line with at
      least two integer-like tokens, or `carried` (the value left by an earlier
      file) when no line has two. */
  function ChargeMultOf(lines: seq<string>, carried: Option<string>): (r: Option<string>)
    ensures (r == carried && forall j | 0 <= j < |lines| :: !IsChargeMultLine(lines[j]))
         || (exists k | 0 <= k < |lines| ::
               r == Some(lines[k]) && IsChargeMultLine(lines[k])
               && forall j | k < j < |lines| :: !IsChargeMultLine(lines[j]))
  {
    if lines == [] then carried
    else if IsChargeMultLine(lines[|lines| - 1]) then Some(lines[|lines| - 1])
    else
      var r := ChargeMultOf(lines[..|lines| - 1], carried);
      assert forall j | 0 <= j < |lines| - 1 :: lines[..|lines| - 1][j] == lines[j];
      r
  }

  /** The inner loop of the detection for one line: count the integer-like
      tokens and take the line once the count reaches two. */
  method DetectInLine(line: string, before: Option<string>) returns (cm: Option<string>)
    ensures cm == if IsChargeMultLine(line) then Some(line) else before
  {
    cm := before;
    var toks := Split(line);
    var numbers := 0;
    var j := 0;
    while j < |toks|
      invariant 0 <= j <= |toks|
      invariant numbers == CountIntLike(toks[..j])
      invariant cm == if numbers >= 2 then Some(line) else before
    {
      assert toks[..j + 1][..j] == toks[..j];
      if IsNumeric(DeleteAll(toks[j], '-')) {
        numbers := numbers + 1;
        if numbers == 2 {
          cm := Some(line);
        }
      }
      j := j + 1;
    }
    assert toks[..j] == toks;
  }

  /** The detection loop of generateGaussianOpt over all lines of an input. */
  method FindChargeMultiplicity(lines: seq<string>, carried: Option<string>) returns (cm: Option<string>)
    ensures cm == ChargeMultOf(lines, carried)
  {
    cm := carried;
    var i := 0;
    while i < |lines|
      invariant 0 <= i <= |lines|
      invariant cm == ChargeMultOf(lines[..i], carried)
    {
      cm := DetectInLine(lines[i], cm);
      assert lines[..i + 1][..i] == lines[..i];
      i := i + 1;
    }
    assert lines[..i] == lines;
  }

  // ---------------------------------------------------------------------------
  // The two rewrites

  /** A marker line with its newlines removed and `suffix` appended. */
  function Extended(line: string, suffix: string): string {
    DeleteAll(line, '\n') + suffix + "\n"
  }

  /** keep_geometry=True: every line is copied, the route line (containing '#')
      gains the optimisation keywords and otherwise a 'Title' line gains the
      annotation; line count and order are kept. */
  method RewriteKeepGeometry(lines: seq<string>, optKeywords: string, titleAddition: string) returns (out: seq<string>)
    ensures |out| == |lines|
    ensures forall i | 0 <= i < |lines| ::
      && (Contains(lines[i], "#") ==> out[i] == Extended(lines[i], optKeywords))
      && (!Contains(lines[i], "#") && Contains(lines[i], "Title") ==> out[i] == Extended(lines[i], titleAddition))
      && (!Contains(lines[i], "#") && !Contains(lines[i], "Title") ==> out[i] == lines[i])
  {
    out := [];
    var i := 0;
    while i < |lines|
      invariant 0 <= i <= |lines| && |out| == i
      invariant forall k | 0 <= k < i ::
        && (Contains(lines[k], "#") ==> out[k] == Extended(lines[k], optKeywords))
        && (!Contains(lines[k], "#") && Contains(lines[k], "Title") ==> out[k] == Extended(lines[k], titleAddition))
        && (!Contains(lines[k], "#") && !Contains(lines[k], "Title") ==> out[k] == lines[k])
    {
      var line := lines[i];
      if Contains(line, "#") {
        out := out + [DeleteAll(line, '\n') + optKeywords + "\n"];
      } else if Contains(line, "Title") {
        out := out + [DeleteAll(line, '\n') + titleAddition + "\n"];
      } else {
        out := out + [line];
      }
      i := i + 1;
    }
  }

  /** What keep_geometry=False writes for one line: '%' lines verbatim, then
      route and 'Title' lines extended, in that priority; nothing otherwise. */
  function HeaderLine(line: string, optKeywords: string, titleAddition: string): Option<string> {
    if Contains(line, "%") then Some(line)
    else if Contains(line, "#") then Some(Extended(line, optKeywords))
    else if Contains(line, "Title") then Some(Extended(line, titleAddition))
    else None
  }

  function HeaderLines(lines: seq<string>, optKeywords: string, titleAddition: string): seq<string> {
    if lines == [] then []
    else
      var h := HeaderLine(lines[|lines| - 1], optKeywords, titleAddition);
      HeaderLines(lines[..|lines| - 1], optKeywords, titleAddition) + (if h.Some? then [h.value] else [])
  }

  lemma {:induction false} HeaderLinesAppend(xs: seq<string>, ys: seq<string>, optKeywords: string, titleAddition: string)
    ensures HeaderLines(xs + ys, optKeywords, titleAddition)
         == HeaderLines(xs, optKeywords, titleAddition) + HeaderLines(ys, optKeywords, titleAddition)
    decreases |ys|
  {
    if ys == [] {
      assert xs + ys == xs;
    } else {
      var n := |ys| - 1;
      assert (xs + ys)[..|xs + ys| - 1] == xs + ys[..n];
      HeaderLinesAppend(xs, ys[..n], optKeywords, titleAddition);
    }
  }

  predicate SeenPercent(lines: seq<string>) {
    exists i | 0 <= i < |lines| :: Contains(lines[i], "%")
  }

  predicate SeenHash(lines: seq<string>) {
    exists i | 0 <= i < |lines| :: !Contains(lines[i], "%") && Contains(lines[i], "#")
  }

  predicate SeenTitle(lines: seq<string>) {
    exists i | 0 <= i < |lines| :: !Contains(lines[i], "%") && !Contains(lines[i], "#") && Contains(lines[i], "Title")
  }

  /** The file keep_geometry=False writes: the header lines, then the
      charge/multiplicity line and a blank line iff a '%' line, a route line and
      a title line were all met. The branch meant to write the optimised
      geometry can never run, so no geometry follows. Reading an unbound
      charge/multiplicity value fails. */
  function NewGeometryFile(lines: seq<string>, cm: Option<string>, optKeywords: string, titleAddition: string): Result<seq<string>> {
    var header := HeaderLines(lines, optKeywords, titleAddition);
    if SeenPercent(lines) && SeenHash(lines) && SeenTitle(lines) then
      if cm.None? then Failure(Unbound("charge_multiplicity_data")) else Success(header + [cm.value, "\n"])
    else Success(header)
  }

  /** keep_geometry=False: the header pass with its three section flags, then
      the single check that appends the charge/multiplicity line. */
  method RewriteNewGeometry(lines: seq<string>, cm: Option<string>, optKeywords: string, titleAddition: string)
    returns (r: Result<seq<string>>, file: seq<string>)
    ensures r == NewGeometryFile(lines, cm, optKeywords, titleAddition)
    ensures r.Success? ==> file == r.value
    ensures r.Failure? ==> file == HeaderLines(lines, optKeywords, titleAddition)
  {
    var out: seq<string> := [];
    var percentWritten, hashtagWritten, titleWritten := false, false, false;
    var chargeMultiplicityWritten := false;
    var i := 0;
    while i < |lines|
      invariant 0 <= i <= |lines|
      invariant out == HeaderLines(lines[..i], optKeywords, titleAddition)
      invariant percentWritten == SeenPercent(lines[..i])
      invariant hashtagWritten == SeenHash(lines[..i])
      invariant titleWritten == SeenTitle(lines[..i])
    {
      var line := lines[i];
      assert lines[..i + 1][..i] == lines[..i];
      assert forall k | 0 <= k < i :: lines[..i + 1][k] == lines[..i][k];
      if Contains(line, "%") {
        out := out + [line];
        percentWritten := true;
      } else if Contains(line, "#") {
        out := out + [DeleteAll(line, '\n') + optKeywords + "\n"];
        hashtagWritten := true;
      } else if Contains(line, "Title") {
        out := out + [DeleteAll(line, '\n') + titleAddition + "\n"];
        titleWritten := true;
      }
      i := i + 1;
    }
    assert lines[..i] == lines;
    assert out == HeaderLines(lines, optKeywords, titleAddition);
    assert percentWritten == SeenPercent(lines);
    assert hashtagWritten == SeenHash(lines);
    assert titleWritten == SeenTitle(lines);
    if percentWritten && hashtagWritten && titleWritten && !chargeMultiplicityWritten {
      if cm.None? {
        return Failure(Unbound("charge_multiplicity_data")), out;
      }
      out := out + [cm.value];
      out := out + ["\n"];
      chargeMultiplicityWritten := true;
      assert out == HeaderLines(lines, optKeywords, titleAddition) + [cm.value, "\n"];
    }
    r := Success(out);
    file := out;
  }

  // ---------------------------------------------------------------------------
  // The whole run

  /** The continuation file for one selected run, given the charge/multiplicity
      value in force: the run's input must exist; keep_geometry=False also reads
      the run's log, which must have terminated normally. */
  function OptInput(fs: FileSystem, outputName: string, cm: Option<string>,
                    optKeywords: string, titleAddition: string, keepGeometry: bool): Result<seq<string>>
  {
    var src := SourceInput(outputName);
    if src !in fs then Failure(FileNotFound(src))
    else if keepGeometry then Success(KeepGeometryFile(fs[src], optKeywords, titleAddition))
    else
      match ReadOutput(fs, outputName)
      case Failure(e) => Failure(e)
      case Success(_) => NewGeometryFile(fs[src], cm, optKeywords, titleAddition)
  }

  function KeepGeometryFile(lines: seq<string>, optKeywords: string, titleAddition: string): seq<string> {
    seq(|lines|, i requires 0 <= i < |lines| =>
      if Contains(lines[i], "#") then Extended(lines[i], optKeywords)
      else if Contains(lines[i], "Title") then Extended(lines[i], titleAddition)
      else lines[i])
  }

  /** What the continuation file of one run holds once the run is over: the
      whole file; only its header lines when keep_geometry=False met an unbound
      charge/multiplicity value after the file was opened; None when the run
      failed before opening it. */
  function LeftBehind(fs: FileSystem, outputName: string, cm: Option<string>,
                      optKeywords: string, titleAddition: string, keepGeometry: bool): Option<seq<string>>
  {
    var src := SourceInput(outputName);
    match OptInput(fs, outputName, cm, optKeywords, titleAddition, keepGeometry)
    case Success(f) => Some(f)
    case Failure(e) =>
      if e.Unbound? && src in fs then Some(HeaderLines(fs[src], optKeywords, titleAddition)) else None
  }

  /** A run cut short by the unbound charge/multiplicity value leaves exactly
      the file a bound value `c` would have given, minus its last two lines
      (the charge/multiplicity line and the blank line). */
  lemma UnboundLeavesHeader(fs: FileSystem, outputName: string, optKeywords: string,
                            titleAddition: string, keepGeometry: bool, cm: Option<string>, c: string)
    requires OptInput(fs, outputName, cm, optKeywords, titleAddition, keepGeometry).Failure?
    requires OptInput(fs, outputName, cm, optKeywords, titleAddition, keepGeometry).error.Unbound?
    ensures !keepGeometry && cm.None?
    ensures OptInput(fs, outputName, Some(c), optKeywords, titleAddition, keepGeometry).Success?
    ensures var full := OptInput(fs, outputName, Some(c), optKeywords, titleAddition, keepGeometry).value;
      && |full| >= 2 && full[|full| - 2..] == [c, "\n"]
      && LeftBehind(fs, outputName, cm, optKeywords, titleAddition, keepGeometry) == Some(full[..|full| - 2])
  {
    var src := SourceInput(outputName);
    var header := HeaderLines(fs[src], optKeywords, titleAddition);
    assert (header + [c, "\n"])[..|header|] == header;
  }

  /** The charge/multiplicity value in force once the input of `outputName` has
      been read, starting from `cm`. */
  function ChargeMultAfter(fs: FileSystem, outputName: string, cm: Option<string>): Option<string> {
    var src := SourceInput(outputName);
    if src in fs then ChargeMultOf(fs[src], cm) else cm
  }

  /** The charge/multiplicity value in force after the inputs of `selected`
      have been read: it is never reset between files. */
  function CarriedChargeMult(fs: FileSystem, selected: seq<string>): Option<string> {
    if selected == [] then None
    else ChargeMultAfter(fs, selected[|selected| - 1], CarriedChargeMult(fs, selected[..|selected| - 1]))
  }

  /** The body of the loop of generateGaussianOpt for one selected run. */
  method ContinueRun(fs: FileSystem, outputName: string, cm: Option<string>,
                     optKeywords: string, titleAddition: string, keepGeometry: bool)
    returns (cmAfter: Option<string>, r: Result<seq<string>>, left: Option<seq<string>>)
    ensures cmAfter == ChargeMultAfter(fs, outputName, cm)
    ensures r == OptInput(fs, outputName, cmAfter, optKeywords, titleAddition, keepGeometry)
    ensures left == LeftBehind(fs, outputName, cmAfter, optKeywords, titleAddition, keepGeometry)
  {
    var originalInput := ReplaceAll(outputName, ".log", ".com");
    cmAfter := cm;
    if originalInput !in fs {
      return cmAfter, Failure(FileNotFound(originalInput)), None;
    }
    var lines := fs[originalInput];
    cmAfter := FindChargeMultiplicity(lines, cm);
    if keepGeometry {
      var out := RewriteKeepGeometry(lines, optKeywords, titleAddition);
      assert out == KeepGeometryFile(lines, optKeywords, titleAddition);
      r := Success(out);
      left := Some(out);
    } else {
      var log := ReadOutput(fs, outputName);
      if log.Failure? {
        return cmAfter, Failure(log.error), None;
      }
      var file;
      r, file := RewriteNewGeometry(lines, cmAfter, optKeywords, titleAddition);
      left := Some(file);
    }
  }

  /** The outcome of the k-th selected run, with the charge/multiplicity value
      in force after reading the inputs of the runs up to it. */
  function RunInput(fs: FileSystem, selected: seq<string>, k: nat,
                    optKeywords: string, titleAddition: string, keepGeometry: bool): Result<seq<string>>
    requires k < |selected|
  {
    OptInput(fs, selected[k], CarriedChargeMult(fs, selected[..k + 1]), optKeywords, titleAddition, keepGeometry)
  }

  /** `w` is the continuation file of the k-th selected run, as that run left
      it (complete, or cut short after its header lines). */
  predicate Continued(fs: FileSystem, selected: seq<string>, k: nat, w: FileWrite, prefix: string,
                      optKeywords: string, titleAddition: string, keepGeometry: bool)
    requires k < |selected|
  {
    var left := LeftBehind(fs, selected[k], CarriedChargeMult(fs, selected[..k + 1]), optKeywords, titleAddition, keepGeometry);
    left.Some? && w == FileWrite(OptName(prefix, k), left.value)
  }

  /** The number of runs that completed: a run that fails on the unbound
      charge/multiplicity value has already written its (partial) file. */
  function Completed(written: seq<FileWrite>, err: Option<Error>): int {
    if err.Some? && err.value.Unbound? then |written| - 1 else |written|
  }

  /** The loop of generateGaussianOpt over the selected runs: the i-th run
      gets continuation file `{prefix}-{i+1}.com`, built from its input file
      with the charge/multiplicity value in force at that point; the first run
      that cannot be continued ends the loop, leaving its file cut short when
      it had already been opened. */
  method ContinueAll(fs: FileSystem, selected: seq<string>, optKeywords: string,
                     prefix: string, titleAddition: string, keepGeometry: bool)
    returns (written: seq<FileWrite>, err: Option<Error>)
    ensures |written| <= |selected|
    ensures forall i | 0 <= i < |written| ::
      Continued(fs, selected, i, written[i], prefix, optKeywords, titleAddition, keepGeometry)
    ensures err.None? ==> |written| == |selected|
    ensures var done := Completed(written, err);
      && 0 <= done
      && (forall i | 0 <= i < done :: RunInput(fs, selected, i, optKeywords, titleAddition, keepGeometry).Success?)
      && (err.Some? ==>
            done < |selected| && RunInput(fs, selected, done, optKeywords, titleAddition, keepGeometry) == Failure(err.value))
  {
    written := [];
    var chargeMultiplicityData: Option<string> := None;
    var i := 0;
    while i < |selected|
      invariant 0 <= i <= |selected| && |written| == i
      invariant chargeMultiplicityData == CarriedChargeMult(fs, selected[..i])
      invariant forall k | 0 <= k < i ::
        && Continued(fs, selected, k, written[k], prefix, optKeywords, titleAddition, keepGeometry)
        && RunInput(fs, selected, k, optKeywords, titleAddition, keepGeometry).Success?
    {
      var optFilename := prefix + "-" + NatToString(i + 1) + ".com";
      assert selected[..i + 1][..i] == selected[..i];
      var out, left;
      chargeMultiplicityData, out, left := ContinueRun(fs, selected[i], chargeMultiplicityData, optKeywords, titleAddition, keepGeometry);
      if out.Failure? {
        if left.Some? {
          written := written + [FileWrite(optFilename, left.value)];
        }
        return written, Some(out.error);
      }
      written := written + [FileWrite(optFilename, out.value)];
      i := i + 1;
    }
    err := None;
  }

  /** generateGaussianOpt: an empty selection writes nothing and fails; otherwise
      the selected runs are continued in ascending order of energy. */
  method GenerateGaussianOpt(
    fs: FileSystem, table: seq<EnergyRow>, conformations: int, optKeywords: string,
    prefix: string, titleAddition: string, keepGeometry: bool)
    returns (written: seq<FileWrite>, err: Option<Error>)
    ensures SelectOutputs(table, conformations).Failure? ==> written == [] && err == Some(NoCandidates)
    ensures SelectOutputs(table, conformations).Success? ==>
      var selected := SelectOutputs(table, conformations).value;
      var done := Completed(written, err);
      && |written| <= |selected|
      && (forall i | 0 <= i < |written| ::
            Continued(fs, selected, i, written[i], prefix, optKeywords, titleAddition, keepGeometry))
      && (err.None? ==> |written| == |selected|)
      && 0 <= done
      && (forall i | 0 <= i < done :: RunInput(fs, selected, i, optKeywords, titleAddition, keepGeometry).Success?)
      && (err.Some? ==>
            done < |selected| && RunInput(fs, selected, done, optKeywords, titleAddition, keepGeometry) == Failure(err.value))
  {
    var selection := SelectOutputs(table, conformations);
    if selection.Failure? {
      return [], Some(NoCandidates);
    }
    written, err := ContinueAll(fs, selection.value, optKeywords, prefix, titleAddition, keepGeometry);
  }

  /** Continuation files are numbered from 1 and never share a name. */
  lemma OptNamesDistinct(prefix: string, i: nat, j: nat)
    requires i != j
    ensures OptName(prefix, i) == InputName(prefix, i + 1)
    ensures OptName(prefix, i) != OptName(prefix, j)
  {
    InputNamesDistinct(prefix, i + 1, j + 1);
  }

  // ---------------------------------------------------------------------------
  // Rewriting the files writeGaussianInput produces

  /** An integer-like token is a non-empty run of digits and '-' signs. */
  lemma IntLikeToken(t: string)
    requires IntLike(t)
    ensures t != [] && NoSpace(t)
    ensures forall c | c in t :: IsDigit(c) || c == '-'
  {
    DeleteAllChars(t, '-');
    assert DeleteAll(t, '-')[0] in t;
    forall i | 0 <= i < |t|
      ensures !IsSpace(t[i])
    {
      assert t[i] in t;
    }
  }

  /** The charge/multiplicity line splits into exactly the charge and the
      multiplicity, so the detection takes it. */
  lemma ChargeLineDetected(job: JobSettings)
    requires IntLike(job.charge) && IntLike(job.multiplicity)
    ensures Split(ChargeLine(job)) == [job.charge, job.multiplicity]
    ensures IsChargeMultLine(ChargeLine(job))
  {
    var c, m := job.charge, job.multiplicity;
    IntLikeToken(c);
    IntLikeToken(m);
    assert ChargeLine(job) == c + ([' '] + (m + " \n"));
    SplitToken(c, [' '] + (m + " \n"));
    SplitSkipsSpace(' ', m + " \n");
    SplitToken(m, " \n");
    SplitLineEnd();
    assert [c, m][..1] == [c];
  }

  /** Reading back a generated input detects the charge/multiplicity line it
      was written with, whatever value an earlier file left, as long as no atom
      line has two integer-like tokens. */
  lemma ChargeMultOfGenerated(filename: string, title: string, atoms: seq<string>, job: JobSettings,
                              style: TitleStyle, carried: Option<string>)
    requires IntLike(job.charge) && IntLike(job.multiplicity)
    requires forall a | a in atoms :: !IsChargeMultLine(a)
    ensures ChargeMultOf(GaussianInput(filename, title, atoms, job, style), carried) == Some(ChargeLine(job))
  {
    var f := GaussianInput(filename, title, atoms, job, style);
    ChargeLineDetected(job);
    GaussianInputLayout(filename, title, atoms, job, style);
    SplitLineEnd();
    forall j | 6 < j < |f|
      ensures !IsChargeMultLine(f[j])
    {
      if j < |f| - 1 {
        assert f[j] == f[7..7 + |atoms|][j - 7];
      }
    }
  }

  /** A token holding a character other than a digit or '-' is not integer-like. */
  lemma NotIntLike(t: string, c: char)
    requires c in t && c != '-' && !IsDigit(c)
    ensures !IntLike(t)
  {
    DeleteAllChars(t, '-');
  }

  /** What `'{:.8f}'` makes of infinite and undefined values is not
      integer-like either. */
  lemma NonFiniteNotIntLike()
    ensures !IntLike("inf") && !IntLike("-inf") && !IntLike("nan")
  {
    NotIntLike("inf", 'i');
    NotIntLike("-inf", 'i');
    NotIntLike("nan", 'n');
  }

  lemma {:induction false} NoIntLikeTokens(toks: seq<string>)
    requires forall k | 0 <= k < |toks| :: !IntLike(toks[k])
    ensures CountIntLike(toks) == 0
  {
    if toks != [] {
      NoIntLikeTokens(toks[..|toks| - 1]);
    }
  }

  /** None of the four fields of an atom line is integer-like. */
  lemma AtomFieldsNotIntLike(toks: seq<string>, fmt: string -> Option<string>)
    requires |toks| >= 8 && RendersNonIntegers(fmt)
    requires fmt(toks[5]).Some? && fmt(toks[6]).Some? && fmt(toks[7]).Some?
    ensures forall f | f in [AtomRecord(toks), fmt(toks[5]).value, fmt(toks[6]).value, fmt(toks[7]).value] :: !IntLike(f)
  {
    var r := AtomRecord(toks);
    assert r[|toks[|toks| - 1]|] == '(';
    NotIntLike(r, '(');
    forall j | 5 <= j < 8
      ensures !IntLike(fmt(toks[j]).value)
    {
      var c :| c in fmt(toks[j]).value && !IsDigit(c) && c != '-';
      NotIntLike(fmt(toks[j]).value, c);
    }
  }

  /** An atom line readPDB writes is never taken for the charge/multiplicity
      line: its name record holds '(' and each coordinate a character that is
      neither a digit nor '-'. */
  lemma AtomLineNotChargeMult(toks: seq<string>, fmt: string -> Option<string>)
    requires forall k | 0 <= k < |toks| :: toks[k] != [] && NoSpace(toks[k])
    requires RendersNonIntegers(fmt)
    requires AtomLine(toks, fmt).Success?
    ensures !IsChargeMultLine(AtomLine(toks, fmt).value)
  {
    AtomLineFields(toks, fmt);
    var fields := [AtomRecord(toks), fmt(toks[5]).value, fmt(toks[6]).value, fmt(toks[7]).value];
    AtomFieldsNotIntLike(toks, fmt);
    assert forall k | 0 <= k < |fields| :: fields[k] in fields;
    NoIntLikeTokens(fields);
  }

  /** No atom line of a readable structure file is a charge/multiplicity line. */
  lemma ReadPdbNoChargeMult(fs: FileSystem, filename: string, fmt: string -> Option<string>)
    requires RendersNonIntegers(fmt)
    requires PdbAtomsOf(fs, filename, fmt).Success?
    ensures forall a | a in PdbAtomsOf(fs, filename, fmt).value :: !IsChargeMultLine(a)
  {
    var lines := fs[filename];
    ReadPdbOnePerAtomLine(lines, fmt);
    var atoms := PdbAtomsOf(fs, filename, fmt).value;
    forall a | a in atoms
      ensures !IsChargeMultLine(a)
    {
      var k :| 0 <= k < |atoms| && atoms[k] == a;
      var l := AtomLines(lines)[k];
      assert l in AtomLines(lines);
      AtomLineNotChargeMult(Split(l), fmt);
    }
  }

  /** From structure file to continuation: an input file written from a
      readable structure file is read back with exactly the charge and
      multiplicity it was written with. */
  lemma GeneratedInputChargeMult(fs: FileSystem, pdbFilename: string, inputName: string, title: string,
                                 job: JobSettings, style: TitleStyle, fmt: string -> Option<string>,
                                 carried: Option<string>)
    requires RendersNonIntegers(fmt)
    requires IntLike(job.charge) && IntLike(job.multiplicity)
    requires PdbAtomsOf(fs, pdbFilename, fmt).Success?
    ensures ChargeMultOf(GaussianInput(inputName, title, PdbAtomsOf(fs, pdbFilename, fmt).value, job, style), carried)
         == Some(ChargeLine(job))
  {
    ReadPdbNoChargeMult(fs, pdbFilename, fmt);
    ChargeMultOfGenerated(inputName, title, PdbAtomsOf(fs, pdbFilename, fmt).value, job, style, carried);
  }

  /** The characters of a generated charge/multiplicity line. */
  lemma ChargeLineChars(job: JobSettings)
    requires IntLike(job.charge) && IntLike(job.multiplicity)
    ensures forall c | c in ChargeLine(job) :: IsDigit(c) || c == '-' || c == ' ' || c == '\n'
  {
    IntLikeToken(job.charge);
    IntLikeToken(job.multiplicity);
  }

  /** keep_geometry=True on a generated input: only the route line and the
      title line change; the charge/multiplicity line and every atom line are
      copied unchanged. */
  lemma KeepGeometryOnGenerated(filename: string, title: string, atoms: seq<string>, job: JobSettings,
                                optKeywords: string, titleAddition: string)
    requires '#' !in job.ncores && 'T' !in job.ncores
    requires '#' !in filename && 'T' !in filename && '#' !in title
    requires IntLike(job.charge) && IntLike(job.multiplicity)
    requires forall a | a in atoms :: !Contains(a, "#") && !Contains(a, "Title")
    ensures var f := GaussianInput(filename, title, atoms, job, Labelled);
      KeepGeometryFile(f, optKeywords, titleAddition)
      == f[2 := Extended(f[2], optKeywords)][4 := Extended(f[4], titleAddition)]
  {
    var f := GaussianInput(filename, title, atoms, job, Labelled);
    GaussianInputLayout(filename, title, atoms, job, Labelled);
    ReplaceAllChars(filename, "com", "chk");
    ChargeLineChars(job);
    ContainsAtStart(f[2], "#");
    ContainsAtStart(f[4], "Title");
    AbsentFirstChar(f[4], "#");
    forall j | 0 <= j < |f| && j != 2 && j != 4
      ensures !Contains(f[j], "#") && !Contains(f[j], "Title")
    {
      if 7 <= j < |f| - 1 {
        assert f[j] == f[7..7 + |atoms|][j - 7];
      } else {
        AbsentFirstChar(f[j], "#");
        AbsentFirstChar(f[j], "Title");
      }
    }
  }

  lemma HeaderLinesCons(x: string, xs: seq<string>, optKeywords: string, titleAddition: string)
    ensures var h := HeaderLine(x, optKeywords, titleAddition);
      HeaderLines([x] + xs, optKeywords, titleAddition)
      == (if h.Some? then [h.value] else []) + HeaderLines(xs, optKeywords, titleAddition)
  {
    HeaderLinesAppend([x], xs, optKeywords, titleAddition);
    assert [x][..0] == [];
  }

  lemma {:induction false} HeaderLinesNone(xs: seq<string>, optKeywords: string, titleAddition: string)
    requires forall x | x in xs :: HeaderLine(x, optKeywords, titleAddition).None?
    ensures HeaderLines(xs, optKeywords, titleAddition) == []
  {
    if xs != [] {
      assert xs[|xs| - 1] in xs;
      HeaderLinesNone(xs[..|xs| - 1], optKeywords, titleAddition);
    }
  }

  /** Which section each fixed line of a generated input belongs to. */
  lemma GeneratedLineSections(filename: string, title: string, atoms: seq<string>, job: JobSettings,
                              optKeywords: string, titleAddition: string)
    requires '%' !in job.theory && '%' !in job.basisSet && '%' !in job.keywords
    requires '%' !in title && '#' !in title
    requires IntLike(job.charge) && IntLike(job.multiplicity)
    ensures var f := GaussianInput(filename, title, atoms, job, Labelled);
      && HeaderLine(f[0], optKeywords, titleAddition) == Some(f[0])
      && HeaderLine(f[1], optKeywords, titleAddition) == Some(f[1])
      && HeaderLine(f[2], optKeywords, titleAddition) == Some(Extended(f[2], optKeywords))
      && HeaderLine(f[4], optKeywords, titleAddition) == Some(Extended(f[4], titleAddition))
      && Contains(f[0], "%")
      && !Contains(f[2], "%") && Contains(f[2], "#")
      && !Contains(f[4], "%") && !Contains(f[4], "#") && Contains(f[4], "Title")
  {
    var f := GaussianInput(filename, title, atoms, job, Labelled);
    var route := "# " + job.theory + "/" + job.basisSet + " " + job.keywords + " \n";
    var titleLine := "Title - " + title + " \n";
    assert f[2] == route && f[4] == titleLine;
    ContainsAtStart(f[0], "%");
    ContainsAtStart(f[1], "%");
    assert !Contains(route, "%") && Contains(route, "#") by {
      ContainsAtStart(route, "#");
      AbsentFirstChar(route, "%");
    }
    assert !Contains(titleLine, "%") && !Contains(titleLine, "#") && Contains(titleLine, "Title") by {
      ContainsAtStart(titleLine, "Title");
      AbsentFirstChar(titleLine, "%");
      AbsentFirstChar(titleLine, "#");
    }
  }

  /** Blank lines and the charge/multiplicity line belong to no header section. */
  lemma UnmarkedLines(job: JobSettings, optKeywords: string, titleAddition: string)
    requires IntLike(job.charge) && IntLike(job.multiplicity)
    ensures HeaderLine("\n", optKeywords, titleAddition).None?
    ensures HeaderLine(ChargeLine(job), optKeywords, titleAddition).None?
  {
    ChargeLineChars(job);
    var blank := "\n";
    AbsentFirstChar(blank, "%");
    AbsentFirstChar(blank, "#");
    AbsentFirstChar(blank, "Title");
    AbsentFirstChar(ChargeLine(job), "%");
    AbsentFirstChar(ChargeLine(job), "#");
    AbsentFirstChar(ChargeLine(job), "Title");
  }

  /** The header pass over the seven-line preamble of an input followed by
      lines outside every section. */
  lemma HeaderOfPreamble(pre: seq<string>, tail: seq<string>, optKeywords: string, titleAddition: string)
    requires |pre| == 7
    requires HeaderLine(pre[0], optKeywords, titleAddition) == Some(pre[0])
    requires HeaderLine(pre[1], optKeywords, titleAddition) == Some(pre[1])
    requires HeaderLine(pre[2], optKeywords, titleAddition) == Some(Extended(pre[2], optKeywords))
    requires HeaderLine(pre[4], optKeywords, titleAddition) == Some(Extended(pre[4], titleAddition))
    requires HeaderLine(pre[3], optKeywords, titleAddition).None?
    requires HeaderLine(pre[5], optKeywords, titleAddition).None?
    requires HeaderLine(pre[6], optKeywords, titleAddition).None?
    requires forall x | x in tail :: HeaderLine(x, optKeywords, titleAddition).None?
    ensures HeaderLines(pre + tail, optKeywords, titleAddition)
         == [pre[0], pre[1], Extended(pre[2], optKeywords), Extended(pre[4], titleAddition)]
  {
    HeaderLinesNone(tail, optKeywords, titleAddition);
    var t6 := [pre[6]] + tail;
    var t5 := [pre[5]] + t6;
    var t4 := [pre[4]] + t5;
    var t3 := [pre[3]] + t4;
    var t2 := [pre[2]] + t3;
    var t1 := [pre[1]] + t2;
    assert pre + tail == [pre[0]] + t1;
    var e2, e4 := Extended(pre[2], optKeywords), Extended(pre[4], titleAddition);
    assert HeaderLines(t6, optKeywords, titleAddition) == [] by {
      HeaderLinesCons(pre[6], tail, optKeywords, titleAddition);
    }
    assert HeaderLines(t5, optKeywords, titleAddition) == [] by {
      HeaderLinesCons(pre[5], t6, optKeywords, titleAddition);
    }
    assert HeaderLines(t4, optKeywords, titleAddition) == [e4] by {
      HeaderLinesCons(pre[4], t5, optKeywords, titleAddition);
    }
    assert HeaderLines(t3, optKeywords, titleAddition) == [e4] by {
      HeaderLinesCons(pre[3], t4, optKeywords, titleAddition);
    }
    assert HeaderLines(t2, optKeywords, titleAddition) == [e2, e4] by {
      HeaderLinesCons(pre[2], t3, optKeywords, titleAddition);
    }
    assert HeaderLines(t1, optKeywords, titleAddition) == [pre[1], e2, e4] by {
      HeaderLinesCons(pre[1], t2, optKeywords, titleAddition);
    }
    HeaderLinesCons(pre[0], t1, optKeywords, titleAddition);
  }

  /** The header pass over a generated input meets all three sections and keeps
      four lines. */
  lemma GeneratedHeader(filename: string, title: string, atoms: seq<string>, job: JobSettings,
                        optKeywords: string, titleAddition: string)
    requires '%' !in job.theory && '%' !in job.basisSet && '%' !in job.keywords
    requires '%' !in title && '#' !in title
    requires IntLike(job.charge) && IntLike(job.multiplicity)
    requires forall a | a in atoms :: !Contains(a, "%") && !Contains(a, "#") && !Contains(a, "Title")
    ensures var f := GaussianInput(filename, title, atoms, job, Labelled);
      && SeenPercent(f) && SeenHash(f) && SeenTitle(f)
      && HeaderLines(f, optKeywords, titleAddition)
         == [f[0], f[1], Extended(f[2], optKeywords), Extended(f[4], titleAddition)]
  {
    var f := GaussianInput(filename, title, atoms, job, Labelled);
    GeneratedLineSections(filename, title, atoms, job, optKeywords, titleAddition);
    UnmarkedLines(job, optKeywords, titleAddition);
    GaussianInputLayout(filename, title, atoms, job, Labelled);
    var tail := atoms + ["\n"];
    assert f == f[..7] + tail;
    HeaderOfPreamble(f[..7], tail, optKeywords, titleAddition);
  }

  /** keep_geometry=False on a generated input: the file keeps the two '%'
      lines, the extended route and title lines, then the detected
      charge/multiplicity line and a blank line. No atom line is written, so
      the result holds no geometry at all. */
  lemma NewGeometryOnGenerated(filename: string, title: string, atoms: seq<string>, job: JobSettings,
                               carried: Option<string>, optKeywords: string, titleAddition: string)
    requires '%' !in job.theory && '%' !in job.basisSet && '%' !in job.keywords
    requires '%' !in title && '#' !in title
    requires IntLike(job.charge) && IntLike(job.multiplicity)
    requires forall a | a in atoms :: !Contains(a, "%") && !Contains(a, "#") && !Contains(a, "Title")
    requires forall a | a in atoms :: !IsChargeMultLine(a)
    ensures var f := GaussianInput(filename, title, atoms, job, Labelled);
      NewGeometryFile(f, ChargeMultOf(f, carried), optKeywords, titleAddition)
      == Success([f[0], f[1], Extended(f[2], optKeywords), Extended(f[4], titleAddition), ChargeLine(job), "\n"])
  {
    var f := GaussianInput(filename, title, atoms, job, Labelled);
    ChargeMultOfGenerated(filename, title, atoms, job, Labelled, carried);
    GeneratedHeader(filename, title, atoms, job, optKeywords, titleAddition);
    var header := HeaderLines(f, optKeywords, titleAddition);
    assert header + [ChargeLine(job), "\n"]
        == [f[0], f[1], Extended(f[2], optKeywords), Extended(f[4], titleAddition), ChargeLine(job), "\n"];
  }
}
