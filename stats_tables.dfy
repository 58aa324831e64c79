/** The table writers writePerformanceStats and writeEnergyStats, as in
    GaussianScripts/GaussianScripts.py, which imports `csv` (the versions in
    GaussianScripts/GaussianAnalyse.py do not, and stop at `csv.writer`
    before any row). The csv writer is modelled by the rows
    it has received: the file is opened before the loop, so when a log fails
    the rows of the logs before it are already written. */
module StatsTables {
  import opened Wrappers
  import opened Text
  import opened LogParser

  /** A csv cell, as the value handed to `writerow`. */
  datatype Cell = Text(s: string) | Int(n: int) | Real(x: real)

  type Row = seq<Cell>

  const PerfHeader: Row :=
    [Text("Output filename"), Text("Number of CPU cores"), Text("Elapsed time (hours)"), Text("Core-h")]

  /** readOutput followed by performanceStats, for one file. */
  function FilePerformance(fs: FileSystem, filename: string): Result<Performance> {
    match ReadOutput(fs, filename)
    case Failure(e) => Failure(e)
    case Success(lines) => PerformanceOf(lines)
  }

  /** A performance row: file, core count, hours and core-hours. */
  function PerfRow(filename: string, p: Performance): Row
    requires IsNumeric(p.ncores)
  {
    [Text(filename), Text(p.ncores), Real(p.elapsed), Real(DigitsValue(p.ncores) as real * p.elapsed)]
  }

  /** writePerformanceStats: the header, then one row per log in input order;
      the first log that cannot be read or parsed ends the run, leaving the rows
      written so far. */
  method WritePerformanceStats(fs: FileSystem, filenames: seq<string>) returns (rows: seq<Row>, err: Option<Error>)
    ensures 1 <= |rows| <= |filenames| + 1 && rows[0] == PerfHeader
    ensures forall i | 0 <= i < |rows| - 1 ::
      FilePerformance(fs, filenames[i]).Success?
      && rows[i + 1] == PerfRow(filenames[i], FilePerformance(fs, filenames[i]).value)
    ensures err.None? <==> |rows| == |filenames| + 1
    ensures err.Some? ==> FilePerformance(fs, filenames[|rows| - 1]) == Failure(err.value)
  {
    rows := [PerfHeader];
    var i := 0;
    while i < |filenames|
      invariant 0 <= i <= |filenames|
      invariant |rows| == i + 1 && rows[0] == PerfHeader
      invariant forall j | 0 <= j < i ::
        FilePerformance(fs, filenames[j]).Success?
        && rows[j + 1] == PerfRow(filenames[j], FilePerformance(fs, filenames[j]).value)
    {
      var filename := filenames[i];
      var output := ReadOutput(fs, filename);
      if output.Failure? {
        return rows, Some(output.error);
      }
      var stats := PerformanceStats(output.value);
      if stats.Failure? {
        return rows, Some(stats.error);
      }
      assert FilePerformance(fs, filename) == stats;
      var ncores, elapsed := stats.value.ncores, stats.value.elapsed;
      var row := [Text(filename), Text(ncores), Real(elapsed), Real(DigitsValue(ncores) as real * elapsed)];
      assert row == PerfRow(filename, FilePerformance(fs, filename).value) by {
        assert forall k | 0 <= k < 4 :: row[k] == PerfRow(filename, stats.value)[k];
      }
      rows := rows + [row];
      i := i + 1;
    }
    err := None;
  }

  /** readOutput followed by energyStats, for one file. */
  function FileEnergy(fs: FileSystem, filename: string): Result<string> {
    match ReadOutput(fs, filename)
    case Failure(e) => Failure(e)
    case Success(lines) => EnergyOf(lines)
  }

  /** The two header rows: the number of files, then the column names. */
  function EnergyHeader(count: nat): seq<Row> {
    [[Text("# Total number of output files = "), Int(count)], [Text("# Output filename"), Text("SCF energy, Hartree")]]
  }

  /** writeEnergyStats: the file count and the column names, then one
      `[filename, energy]` row per log in input order; the first log that
      cannot be read or parsed ends the run, leaving the rows written so far. */
  method WriteEnergyStats(fs: FileSystem, filenames: seq<string>) returns (rows: seq<Row>, err: Option<Error>)
    ensures 2 <= |rows| <= |filenames| + 2 && rows[..2] == EnergyHeader(|filenames|)
    ensures forall i | 0 <= i < |rows| - 2 ::
      FileEnergy(fs, filenames[i]).Success?
      && rows[i + 2] == [Text(filenames[i]), Text(FileEnergy(fs, filenames[i]).value)]
    ensures err.None? <==> |rows| == |filenames| + 2
    ensures err.Some? ==> FileEnergy(fs, filenames[|rows| - 2]) == Failure(err.value)
  {
    rows := [[Text("# Total number of output files = "), Int(|filenames|)]];
    rows := rows + [[Text("# Output filename"), Text("SCF energy, Hartree")]];
    var i := 0;
    while i < |filenames|
      invariant 0 <= i <= |filenames|
      invariant |rows| == i + 2 && rows[..2] == EnergyHeader(|filenames|)
      invariant forall j | 0 <= j < i ::
        FileEnergy(fs, filenames[j]).Success?
        && rows[j + 2] == [Text(filenames[j]), Text(FileEnergy(fs, filenames[j]).value)]
    {
      var filename := filenames[i];
      var output := ReadOutput(fs, filename);
      if output.Failure? {
        return rows, Some(output.error);
      }
      var energy := EnergyStats(output.value);
      if energy.Failure? {
        return rows, Some(energy.error);
      }
      rows := rows + [[Text(filename), Text(energy.value)]];
      i := i + 1;
    }
    err := None;
  }
}
