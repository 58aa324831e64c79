/** The log scanners of GaussianScripts/GaussianAnalyse.py (identical copies in
    GaussianScripts/GaussianScripts.py): the termination check, the core-count
    and elapsed-time extraction, and the SCF-energy extraction. A log is the
    sequence of its lines as `readlines()` returns them. */
module LogParser {
  import opened Wrappers
  import opened Text
  import opened Scans

  /** Path to contents (lines, each keeping its newline) of every readable file. */
  type FileSystem = map<string, seq<string>>

  const NormalTermination := "Normal termination"
  const CoreMarker := "processors via shared memory"
  const ElapsedMarker := "Elapsed time"
  const ScfMarker := "SCF Done"

  // ---------------------------------------------------------------------------
  // readOutput

  /** readOutput: the lines of `filename`, accepted only when its last line
      reports normal termination. */
  function ReadOutput(fs: FileSystem, filename: string): (r: Result<seq<string>>)
    ensures r.Success? <==>
      filename in fs && |fs[filename]| > 0 && Contains(fs[filename][|fs[filename]| - 1], NormalTermination)
    ensures r.Success? ==> r.value == fs[filename]
    ensures filename !in fs ==> r == Failure(FileNotFound(filename))
    ensures filename in fs && fs[filename] == [] ==> r == Failure(EmptyFile(filename))
  {
    if filename !in fs then Failure(FileNotFound(filename))
    else
      var lines := fs[filename];
      if lines == [] then Failure(EmptyFile(filename))
      else if !Contains(lines[|lines| - 1], NormalTermination) then Failure(AbnormalTermination(filename))
      else Success(lines)
  }

  // ---------------------------------------------------------------------------
  // Shared helpers

  /** Index of the last line that contains `marker`, or -1 when none does. */
  function LastMatch(lines: seq<string>, marker: string): (k: int)
    ensures -1 <= k < |lines|
    ensures k >= 0 ==> Contains(lines[k], marker)
    ensures forall j | k < j < |lines| :: !Contains(lines[j], marker)
  {
    if lines == [] then -1
    else if Contains(lines[|lines| - 1], marker) then |lines| - 1
    else LastMatch(lines[..|lines| - 1], marker)
  }

  lemma LastMatchNext(lines: seq<string>, k: nat, marker: string)
    requires k < |lines|
    ensures LastMatch(lines[..k + 1], marker) ==
      if Contains(lines[k], marker) then k else LastMatch(lines[..k], marker)
  {
    assert lines[..k + 1][..k] == lines[..k];
  }

  /** `line.split()[k]`, or the empty string when the line has fewer tokens. */
  function Token(line: string, k: nat): string {
    var toks := Split(line);
    if k < |toks| then toks[k] else ""
  }

  // ---------------------------------------------------------------------------
  // performanceStats

  /** A time token passes `t.replace('.', '', 1).isnumeric()`. */
  predicate TimeTokenOk(t: string) {
    IsNumeric(DeleteFirst(t, '.'))
  }

  /** The time predicate accepts exactly the unsigned decimals: digits with at
      most one point and at least one digit. */
  lemma TimeTokenShape(t: string)
    ensures TimeTokenOk(t) <==> Allowed(t, {'.'}) && multiset(t)['.'] <= 1 && HasDigit(t)
  {
    NumericIsAllowed(DeleteFirst(t, '.'));
    DeleteFirstAllowed(t, '.', {});
    assert {} + {'.'} == {'.'};
  }

  /** `float(t)` of an accepted time token; never negative. */
  function TimeValue(t: string): (x: real)
    requires TimeTokenOk(t)
    ensures x >= 0.0
  {
    TimeTokenShape(t);
    DecimalValue(t)
  }

  /** The script's conversion to hours (a day counts 12 hours, as written). */
  function ElapsedHours(days: real, hours: real, minutes: real, seconds: real): real {
    days * 12.0 + hours + minutes / 60.0 + seconds / 3600.0
  }

  predicate ElapsedTokensOk(toks: seq<string>) {
    |toks| > 8 && TimeTokenOk(toks[2]) && TimeTokenOk(toks[4]) && TimeTokenOk(toks[6]) && TimeTokenOk(toks[8])
  }

  /** Hours given by tokens 2, 4, 6 and 8 of an elapsed-time line; never negative. */
  function ElapsedOfTokens(toks: seq<string>): (x: real)
    requires ElapsedTokensOk(toks)
    ensures x >= 0.0
  {
    ElapsedHours(TimeValue(toks[2]), TimeValue(toks[4]), TimeValue(toks[6]), TimeValue(toks[8]))
  }

  /** A line the loop of performanceStats gets past without raising. */
  predicate PerfLineOk(line: string) {
    var toks := Split(line);
    (Contains(line, CoreMarker) ==> |toks| > 4 && IsNumeric(toks[4]))
    && (Contains(line, ElapsedMarker) ==> ElapsedTokensOk(toks))
  }

  datatype PerfState = PerfState(ncores: Option<string>, elapsed: Option<real>)

  const PerfInit := PerfState(None, None)

  /** One iteration of the loop of performanceStats. */
  function PerfStep(st: PerfState, line: string): Result<PerfState> {
    var toks := Split(line);
    if Contains(line, CoreMarker) && |toks| <= 4 then Failure(MissingToken(CoreMarker))
    else if Contains(line, CoreMarker) && !IsNumeric(toks[4]) then Failure(Unreadable("processors"))
    else
      var st1 := if Contains(line, CoreMarker) then st.(ncores := Some(toks[4])) else st;
      if !Contains(line, ElapsedMarker) then Success(st1)
      else if |toks| <= 8 then Failure(MissingToken(ElapsedMarker))
      else if !TimeTokenOk(toks[2]) then Failure(Unreadable("days"))
      else if !TimeTokenOk(toks[4]) then Failure(Unreadable("hours"))
      else if !TimeTokenOk(toks[6]) then Failure(Unreadable("minutes"))
      else if !TimeTokenOk(toks[8]) then Failure(Unreadable("seconds"))
      else Success(st1.(elapsed := Some(ElapsedOfTokens(toks))))
  }

  datatype Performance = Performance(ncores: string, elapsed: real)

  /** performanceStats as a function of the log: the loop, then the return of
      two locals that stay unbound when no line assigned them. */
  function PerformanceOf(lines: seq<string>): (r: Result<Performance>)
    ensures r.Success? ==> IsNumeric(r.value.ncores) && r.value.elapsed >= 0.0
  {
    PerfScanLastMatch(lines);
    match Scan(lines, PerfInit, PerfStep)
    case Failure(e) => Failure(e)
    case Success(st) =>
      if st.ncores.None? then Failure(Unbound("ncores"))
      else if st.elapsed.None? then Failure(Unbound("elapsed_time"))
      else Success(Performance(st.ncores.value, st.elapsed.value))
  }

  /** One line of the loop: it raises iff the line is malformed, and otherwise
      a marker line overwrites the value it carries. */
  lemma PerfStepSpec(st: PerfState, line: string)
    ensures PerfStep(st, line).Success? <==> PerfLineOk(line)
    ensures PerfStep(st, line).Success? ==>
      && PerfStep(st, line).value.ncores == (if Contains(line, CoreMarker) then Some(Token(line, 4)) else st.ncores)
      && PerfStep(st, line).value.elapsed ==
           (if Contains(line, ElapsedMarker) then Some(ElapsedOfTokens(Split(line))) else st.elapsed)
  {
  }

  /** The loop state after any prefix of the log: it fails iff some line is
      malformed, and otherwise holds the values of the LAST marker lines. */
  lemma {:induction false} PerfScanLastMatch(lines: seq<string>)
    ensures Scan(lines, PerfInit, PerfStep).Success? <==> forall j | 0 <= j < |lines| :: PerfLineOk(lines[j])
    ensures Scan(lines, PerfInit, PerfStep).Success? ==>
      var st := Scan(lines, PerfInit, PerfStep).value;
      var c := LastMatch(lines, CoreMarker);
      var e := LastMatch(lines, ElapsedMarker);
      && st.ncores == (if c < 0 then None else Some(Token(lines[c], 4)))
      && st.elapsed == (if e < 0 then None else Some(ElapsedOfTokens(Split(lines[e]))))
  {
    if lines != [] {
      var n := |lines| - 1;
      var pre, last := lines[..n], lines[n];
      PerfScanLastMatch(pre);
      assert forall j | 0 <= j < n :: pre[j] == lines[j];
      assert (forall j | 0 <= j < |lines| :: PerfLineOk(lines[j]))
         <==> (forall j | 0 <= j < n :: PerfLineOk(pre[j])) && PerfLineOk(last);
      assert LastMatch(lines, CoreMarker) == if Contains(last, CoreMarker) then n else LastMatch(pre, CoreMarker) by {
        LastMatchNext(lines, n, CoreMarker);
        assert lines[..n + 1] == lines;
      }
      assert LastMatch(lines, ElapsedMarker) == if Contains(last, ElapsedMarker) then n else LastMatch(pre, ElapsedMarker) by {
        LastMatchNext(lines, n, ElapsedMarker);
        assert lines[..n + 1] == lines;
      }
      if Scan(pre, PerfInit, PerfStep).Success? {
        PerfStepSpec(Scan(pre, PerfInit, PerfStep).value, last);
      }
    }
  }

  /** What performanceStats promises: it succeeds iff every marker line is
      well-formed and both markers occur; the core count is token 4 of the last
      core-count line, all digits; the elapsed time comes from the last
      elapsed-time line and is not negative. */
  lemma PerformanceFromLastLines(lines: seq<string>)
    ensures PerformanceOf(lines).Success? <==>
      (forall j | 0 <= j < |lines| :: PerfLineOk(lines[j]))
      && LastMatch(lines, CoreMarker) >= 0 && LastMatch(lines, ElapsedMarker) >= 0
    ensures PerformanceOf(lines).Success? ==>
      var p := PerformanceOf(lines).value;
      && p.ncores == Token(lines[LastMatch(lines, CoreMarker)], 4)
      && IsNumeric(p.ncores)
      && p.elapsed == ElapsedOfTokens(Split(lines[LastMatch(lines, ElapsedMarker)]))
      && p.elapsed >= 0.0
  {
    PerfScanLastMatch(lines);
  }

  /** A log without a core-count line or without an elapsed-time line yields
      no statistics at all, never a default. */
  lemma PerformanceNeedsBothMarkers(lines: seq<string>)
    requires LastMatch(lines, CoreMarker) < 0 || LastMatch(lines, ElapsedMarker) < 0
    ensures PerformanceOf(lines).Failure?
  {
    PerfScanLastMatch(lines);
  }

  /** The worked example: 1 day, 2 hours, 30 minutes and 0.0 seconds give 14.5 hours. */
  lemma ElapsedExample()
    ensures ElapsedTokensOk(["Elapsed", "time:", "1", "days", "2", "hours", "30", "minutes", "0.0", "seconds."])
    ensures ElapsedOfTokens(["Elapsed", "time:", "1", "days", "2", "hours", "30", "minutes", "0.0", "seconds."]) == 14.5
  {
    WholeTimeValue("1", 1);
    WholeTimeValue("2", 2);
    WholeTimeValue("30", 30);
    assert DeleteFirst("0.0", '.') == "00";
    assert IndexOf("0.0", '.') == 1;
    assert "0.0"[..1] == "0" && "0.0"[2..] == "0";
    assert DigitsValue("0") == 0;
  }

  /** A time token without a point reads as the whole number its digits spell. */
  lemma WholeTimeValue(t: string, n: nat)
    requires IsNumeric(t) && DigitsValue(t) == n
    ensures TimeTokenOk(t) && TimeValue(t) == n as real
  {
    assert forall k | 0 <= k < |t| :: t[k] in t;
    assert forall k | 0 <= k < |t| :: t[k] != '.';
    NoPointDeleteFirst(t);
  }

  lemma {:induction false} NoPointDeleteFirst(t: string)
    requires forall k | 0 <= k < |t| :: t[k] != '.'
    ensures DeleteFirst(t, '.') == t && IndexOf(t, '.') == |t|
  {
    if t != [] {
      NoPointDeleteFirst(t[1..]);
    }
  }

  /** performanceStats: scans every line, keeping the last core count and the
      last elapsed time, and stops at the first line whose tokens are malformed. */
  method PerformanceStats(lines: seq<string>) returns (r: Result<Performance>)
    ensures r == PerformanceOf(lines)
  {
    var ncores: Option<string> := None;
    var elapsed: Option<real> := None;
    var i := 0;
    while i < |lines|
      invariant 0 <= i <= |lines|
      invariant Scan(lines[..i], PerfInit, PerfStep) == Success(PerfState(ncores, elapsed))
    {
      var line := lines[i];
      var toks := Split(line);
      ScanNext(lines, i, PerfInit, PerfStep, PerfState(ncores, elapsed));
      if Contains(line, CoreMarker) {
        if |toks| <= 4 {
          ScanStops(lines, i + 1, PerfInit, PerfStep);
          return Failure(MissingToken(CoreMarker));
        }
        if !IsNumeric(toks[4]) {
          ScanStops(lines, i + 1, PerfInit, PerfStep);
          return Failure(Unreadable("processors"));
        }
        ncores := Some(toks[4]);
      }
      if Contains(line, ElapsedMarker) {
        if |toks| <= 8 {
          ScanStops(lines, i + 1, PerfInit, PerfStep);
          return Failure(MissingToken(ElapsedMarker));
        }
        var days, hours, minutes, seconds := toks[2], toks[4], toks[6], toks[8];
        if !TimeTokenOk(days) {
          ScanStops(lines, i + 1, PerfInit, PerfStep);
          return Failure(Unreadable("days"));
        }
        if !TimeTokenOk(hours) {
          ScanStops(lines, i + 1, PerfInit, PerfStep);
          return Failure(Unreadable("hours"));
        }
        if !TimeTokenOk(minutes) {
          ScanStops(lines, i + 1, PerfInit, PerfStep);
          return Failure(Unreadable("minutes"));
        }
        if !TimeTokenOk(seconds) {
          ScanStops(lines, i + 1, PerfInit, PerfStep);
          return Failure(Unreadable("seconds"));
        }
        elapsed := Some(ElapsedHours(TimeValue(days), TimeValue(hours), TimeValue(minutes), TimeValue(seconds)));
      }
      i := i + 1;
    }
    assert lines[..i] == lines;
    if ncores.None? {
      return Failure(Unbound("ncores"));
    }
    if elapsed.None? {
      return Failure(Unbound("elapsed_time"));
    }
    r := Success(Performance(ncores.value, elapsed.value));
  }

  // ---------------------------------------------------------------------------
  // energyStats

  /** An energy token passes `t.replace('.', '', 1).replace('-', '', 1).isnumeric()`. */
  predicate EnergyTokenOk(t: string) {
    IsNumeric(DeleteFirst(DeleteFirst(t, '.'), '-'))
  }

  /** The energy predicate accepts exactly the strings of digits with at most
      one point, at most one minus sign (anywhere) and at least one digit. */
  lemma EnergyTokenShape(t: string)
    ensures EnergyTokenOk(t) <==>
      Allowed(t, {'.', '-'}) && multiset(t)['.'] <= 1 && multiset(t)['-'] <= 1 && HasDigit(t)
  {
    var u := DeleteFirst(t, '.');
    NumericIsAllowed(DeleteFirst(u, '-'));
    DeleteFirstAllowed(u, '-', {});
    DeleteFirstAllowed(t, '.', {'-'});
    assert {} + {'-'} == {'-'};
    assert {'-'} + {'.'} == {'.', '-'};
  }

  predicate EnergyLineOk(line: string) {
    Contains(line, ScfMarker) ==> |Split(line)| > 4 && EnergyTokenOk(Split(line)[4])
  }

  /** One iteration of the loop of energyStats. */
  function EnergyStep(st: Option<string>, line: string): Result<Option<string>> {
    if !Contains(line, ScfMarker) then Success(st)
    else
      var toks := Split(line);
      if |toks| <= 4 then Failure(MissingToken(ScfMarker))
      else if !EnergyTokenOk(toks[4]) then Failure(Unreadable("SCF energy"))
      else Success(Some(toks[4]))
  }

  /** energyStats as a function of the log. */
  function EnergyOf(lines: seq<string>): Result<string> {
    match Scan(lines, None, EnergyStep)
    case Failure(e) => Failure(e)
    case Success(st) => if st.None? then Failure(Unbound("scf_energy")) else Success(st.value)
  }

  lemma {:induction false} EnergyScanLastMatch(lines: seq<string>)
    ensures Scan(lines, None, EnergyStep).Success? <==> forall j | 0 <= j < |lines| :: EnergyLineOk(lines[j])
    ensures Scan(lines, None, EnergyStep).Success? ==>
      var k := LastMatch(lines, ScfMarker);
      Scan(lines, None, EnergyStep).value == if k < 0 then None else Some(Token(lines[k], 4))
  {
    if lines != [] {
      var n := |lines| - 1;
      var pre := lines[..n];
      EnergyScanLastMatch(pre);
      assert forall j | 0 <= j < n :: pre[j] == lines[j];
      LastMatchNext(lines, n, ScfMarker);
      assert lines[..n + 1] == lines;
    }
  }

  /** What energyStats promises: it succeeds iff every 'SCF Done' line is
      well-formed and there is at least one; the energy is token 4 of the LAST
      such line and passes the digit predicate. */
  lemma EnergyFromLastLine(lines: seq<string>)
    ensures EnergyOf(lines).Success? <==>
      (forall j | 0 <= j < |lines| :: EnergyLineOk(lines[j])) && LastMatch(lines, ScfMarker) >= 0
    ensures EnergyOf(lines).Success? ==>
      EnergyOf(lines).value == Token(lines[LastMatch(lines, ScfMarker)], 4)
      && EnergyTokenOk(EnergyOf(lines).value)
  {
    EnergyScanLastMatch(lines);
  }

  /** energyStats: keeps the token of the last 'SCF Done' line. */
  method EnergyStats(lines: seq<string>) returns (r: Result<string>)
    ensures r == EnergyOf(lines)
  {
    var scfEnergy: Option<string> := None;
    var i := 0;
    while i < |lines|
      invariant 0 <= i <= |lines|
      invariant Scan(lines[..i], None, EnergyStep) == Success(scfEnergy)
    {
      var line := lines[i];
      ScanNext(lines, i, None, EnergyStep, scfEnergy);
      if Contains(line, ScfMarker) {
        var toks := Split(line);
        if |toks| <= 4 {
          ScanStops(lines, i + 1, None, EnergyStep);
          return Failure(MissingToken(ScfMarker));
        }
        if !EnergyTokenOk(toks[4]) {
          ScanStops(lines, i + 1, None, EnergyStep);
          return Failure(Unreadable("SCF energy"));
        }
        scfEnergy := Some(toks[4]);
      }
      i := i + 1;
    }
    assert lines[..i] == lines;
    if scfEnergy.None? {
      return Failure(Unbound("scf_energy"));
    }
    r := Success(scfEnergy.value);
  }
}
