/** Input-file generation: the naming pass over a directory walk
    (generateInputNamesFromPDB in GaussianScripts/GaussianInputGen.py, copied as
    generateInputNames in GaussianScripts/GaussianScripts.py and
    GaussianInputGen/GaussianInputGenFunctions.py), readPDB, writeGaussianInput
    and generateGaussianInput. The walk is given as data and files written are
    returned as values. */
module InputGen {
  import opened Wrappers
  import opened Text
  import opened Scans
  import opened LogParser

  // ---------------------------------------------------------------------------
  // Naming

  /** One `(subdir, dirs, files)` triple of `os.walk`, without `dirs`. */
  datatype WalkEntry = WalkEntry(subdir: string, files: seq<string>)

  /** `os.path.join(dir, name)` for a relative `name`. */
  function Join(dir: string, name: string): string {
    if dir == [] then name
    else if dir[|dir| - 1] == '/' then dir + name
    else dir + "/" + name
  }

  /** The joined paths of the files of one directory whose names contain '.pdb'. */
  function PdbIn(dir: string, files: seq<string>): seq<string> {
    if files == [] then []
    else
      var name := files[|files| - 1];
      PdbIn(dir, files[..|files| - 1]) + (if Contains(name, ".pdb") then [Join(dir, name)] else [])
  }

  /** The joined paths of all '.pdb' files of the walk, in discovery order. */
  function PdbPaths(walk: seq<WalkEntry>): seq<string> {
    if walk == [] then []
    else
      var e := walk[|walk| - 1];
      PdbPaths(walk[..|walk| - 1]) + PdbIn(e.subdir, e.files)
  }

  /** `s[n:]` in Python: empty when `n` is past the end. */
  function DropPrefix(s: string, n: nat): string {
    if n <= |s| then s[n..] else []
  }

  /** The path part of a title: the path below the root, with '/' turned into
      '_' and every '.pdb' deleted. */
  function TitleStem(rootdir: string, path: string): string {
    ReplaceAll(ReplaceAll(DropPrefix(path, |rootdir| + 1), "/", "_"), ".pdb", "")
  }

  /** The title of the k-th structure file. */
  function Title(rootdir: string, path: string, prefix: string, k: nat): string {
    TitleStem(rootdir, path) + "-" + prefix + "-" + NatToString(k)
  }

  /** The input-file name of the k-th structure file. */
  function InputName(prefix: string, k: nat): string {
    prefix + "-" + NatToString(k) + ".com"
  }

  /** Different counters give different input names, so no generated input
      file overwrites another. */
  lemma InputNamesDistinct(prefix: string, k: nat, l: nat)
    requires k != l
    ensures InputName(prefix, k) != InputName(prefix, l)
  {
    NatToStringInjective(k, l);
    var a, b := NatToString(k), NatToString(l);
    var n := |prefix| + 1;
    if |a| == |b| {
      assert InputName(prefix, k)[n..n + |a|] == a;
      assert InputName(prefix, l)[n..n + |b|] == b;
    } else {
      assert |InputName(prefix, k)| != |InputName(prefix, l)|;
    }
  }

  /** The path part of a title never holds '/': every '/' became '_' and
      deleting '.pdb' brings none back. */
  lemma TitleStemHasNoSlash(rootdir: string, path: string)
    ensures '/' !in TitleStem(rootdir, path)
  {
    var s := DropPrefix(path, |rootdir| + 1);
    var u := ReplaceAll(s, "/", "_");
    ReplaceCharLeavesNone(s, '/', '_');
    assert "/" == ['/'] && "_" == ['_'];
    assert '/' !in u;
    ReplaceAllChars(u, ".pdb", "");
  }

  /** generateInputNames: walks the given tree, numbering the files whose name
      contains '.pdb' from 1 in discovery order; returns their paths, input
      names and titles, three lists of equal length. */
  method GenerateInputNames(rootdir: string, prefix: string, walk: seq<WalkEntry>)
    returns (pdbFilenames: seq<string>, inputNames: seq<string>, titles: seq<string>)
    ensures pdbFilenames == PdbPaths(walk)
    ensures |inputNames| == |titles| == |pdbFilenames|
    ensures forall k | 0 <= k < |pdbFilenames| ::
      inputNames[k] == InputName(prefix, k + 1) && titles[k] == Title(rootdir, pdbFilenames[k], prefix, k + 1)
  {
    pdbFilenames, inputNames, titles := [], [], [];
    var fileCounter := 0;
    var d := 0;
    while d < |walk|
      invariant 0 <= d <= |walk|
      invariant pdbFilenames == PdbPaths(walk[..d])
      invariant fileCounter == |pdbFilenames| == |inputNames| == |titles|
      invariant forall k | 0 <= k < |pdbFilenames| ::
        inputNames[k] == InputName(prefix, k + 1) && titles[k] == Title(rootdir, pdbFilenames[k], prefix, k + 1)
    {
      var subdir, files := walk[d].subdir, walk[d].files;
      ghost var before := pdbFilenames;
      var j := 0;
      while j < |files|
        invariant 0 <= j <= |files|
        invariant pdbFilenames == before + PdbIn(subdir, files[..j])
        invariant fileCounter == |pdbFilenames| == |inputNames| == |titles|
        invariant forall k | 0 <= k < |pdbFilenames| ::
          inputNames[k] == InputName(prefix, k + 1) && titles[k] == Title(rootdir, pdbFilenames[k], prefix, k + 1)
      {
        var file := files[j];
        assert files[..j + 1][..j] == files[..j];
        if Contains(file, ".pdb") {
          fileCounter := fileCounter + 1;
          var pdbFile := Join(subdir, file);
          pdbFilenames := pdbFilenames + [pdbFile];
          var title := ReplaceAll(ReplaceAll(DropPrefix(Join(subdir, file), |rootdir| + 1), "/", "_"), ".pdb", "");
          titles := titles + [title + "-" + prefix + "-" + NatToString(fileCounter)];
          inputNames := inputNames + [prefix + "-" + NatToString(fileCounter) + ".com"];
        }
        j := j + 1;
      }
      assert files[..j] == files;
      assert walk[..d + 1][..d] == walk[..d];
      d := d + 1;
    }
    assert walk[..d] == walk;
  }

  /** Every path the naming pass returns names a '.pdb' file. */
  lemma {:induction false} PdbPathsArePdb(walk: seq<WalkEntry>)
    ensures forall p | p in PdbPaths(walk) :: Contains(p, ".pdb")
  {
    if walk != [] {
      PdbPathsArePdb(walk[..|walk| - 1]);
      var e := walk[|walk| - 1];
      PdbInArePdb(e.subdir, e.files);
    }
  }

  lemma {:induction false} PdbInArePdb(dir: string, files: seq<string>)
    ensures forall p | p in PdbIn(dir, files) :: Contains(p, ".pdb")
  {
    if files != [] {
      PdbInArePdb(dir, files[..|files| - 1]);
      var name := files[|files| - 1];
      if Contains(name, ".pdb") {
        if dir == [] {
        } else if dir[|dir| - 1] == '/' {
          ContainsInSuffix(dir, name, ".pdb");
        } else {
          ContainsInSuffix(dir + "/", name, ".pdb");
        }
      }
    }
  }

  // ---------------------------------------------------------------------------
  // readPDB

  /** `f'{s:>w}'`: right-aligned in a field of width `w`. */
  function PadLeft(s: string, w: nat): (r: string)
    ensures |r| == if |s| >= w then |s| else w
    ensures r[|r| - |s|..] == s
    ensures forall i | 0 <= i < |r| - |s| :: r[i] == ' '
  {
    if |s| >= w then s else seq(w - |s|, _ => ' ') + s
  }

  /** The atom line readPDB builds from the tokens of one ATOM line: atom name
      (the last token), PDB name, residue name and residue number (tokens 2, 3,
      4), then the three coordinates (tokens 5, 6, 7) as `fmt` renders them.
      `fmt` stands for `'{:.8f}'.format(float(t))`, None when `float` rejects t. */
  function AtomLine(toks: seq<string>, fmt: string -> Option<string>): (r: Result<string>)
    ensures r.Success? <==> |toks| >= 8 && fmt(toks[5]).Some? && fmt(toks[6]).Some? && fmt(toks[7]).Some?
    ensures r.Failure? ==> r.error == MissingToken("ATOM") || r.error.Unreadable?
  {
    if |toks| <= 4 then Failure(MissingToken("ATOM"))
    else if |toks| <= 5 then Failure(MissingToken("ATOM"))
    else if fmt(toks[5]).None? then Failure(Unreadable("X"))
    else if |toks| <= 6 then Failure(MissingToken("ATOM"))
    else if fmt(toks[6]).None? then Failure(Unreadable("Y"))
    else if |toks| <= 7 then Failure(MissingToken("ATOM"))
    else if fmt(toks[7]).None? then Failure(Unreadable("Z"))
    else
      Success(AtomText(AtomRecord(toks), fmt(toks[5]).value, fmt(toks[6]).value, fmt(toks[7]).value))
  }

  /** The text of an atom line: the name record, then the three coordinates. */
  function AtomText(record: string, x: string, y: string, z: string): string {
    " " + record + Field(x, Field(y, Field(z, " \n")))
  }

  /** A separating blank, then `v` right-aligned in 20 columns, then `rest`. */
  function Field(v: string, rest: string): string {
    " " + PadLeft(v, 20) + rest
  }

  /** The name part of an atom line. */
  function AtomRecord(toks: seq<string>): string
    requires |toks| > 4
  {
    toks[|toks| - 1] + "(PDBName=" + toks[2] + ",ResName=" + toks[3] + ",ResNum=" + toks[4] + ")"
  }

  /** `fmt` renders every number it accepts as one non-empty token without
      blanks, as `'{:.8f}'` does. */
  ghost predicate RendersTokens(fmt: string -> Option<string>) {
    forall t :: fmt(t).Some? ==> fmt(t).value != [] && NoSpace(fmt(t).value)
  }

  /** Moreover every rendering holds a character that is neither a digit nor
      '-': the decimal point of a finite value, a letter of "inf" or "nan". */
  ghost predicate RendersNonIntegers(fmt: string -> Option<string>) {
    && RendersTokens(fmt)
    && forall t :: fmt(t).Some? ==> exists c | c in fmt(t).value :: !IsDigit(c) && c != '-'
  }

  /** A field is the padding blanks (one more than `PadLeft` adds), the
      value, then the rest. */
  lemma FieldBlanks(x: string, rest: string)
    ensures Field(x, rest) == seq(|PadLeft(x, 20)| - |x| + 1, _ => ' ') + (x + rest)
  {
    assert PadLeft(x, 20) == seq(|PadLeft(x, 20)| - |x|, _ => ' ') + x;
  }

  lemma SplitPadded(x: string, rest: string)
    requires x != [] && NoSpace(x)
    requires rest == [] || IsSpace(rest[0])
    ensures Split(Field(x, rest)) == [x] + Split(rest)
  {
    FieldBlanks(x, rest);
    SplitBlanksToken(|PadLeft(x, 20)| - |x| + 1, x, rest);
  }

  lemma NoSpaceConcat(a: string, b: string)
    requires NoSpace(a) && NoSpace(b)
    ensures NoSpace(a + b)
  {
    assert forall i | |a| <= i < |a + b| :: (a + b)[i] == b[i - |a|];
  }

  /** The name record of an atom line is a single token. */
  lemma AtomRecordIsToken(toks: seq<string>)
    requires |toks| > 4
    requires forall k | 0 <= k < |toks| :: toks[k] != [] && NoSpace(toks[k])
    ensures AtomRecord(toks) != [] && NoSpace(AtomRecord(toks))
  {
    var last := toks[|toks| - 1];
    assert NoSpace("(PDBName=") && NoSpace(",ResName=") && NoSpace(",ResNum=") && NoSpace(")");
    NoSpaceConcat(last, "(PDBName=");
    NoSpaceConcat(last + "(PDBName=", toks[2]);
    NoSpaceConcat(last + "(PDBName=" + toks[2], ",ResName=");
    NoSpaceConcat(last + "(PDBName=" + toks[2] + ",ResName=", toks[3]);
    NoSpaceConcat(last + "(PDBName=" + toks[2] + ",ResName=" + toks[3], ",ResNum=");
    NoSpaceConcat(last + "(PDBName=" + toks[2] + ",ResName=" + toks[3] + ",ResNum=", toks[4]);
    NoSpaceConcat(last + "(PDBName=" + toks[2] + ",ResName=" + toks[3] + ",ResNum=" + toks[4], ")");
  }

  /** The layout of an atom line splits into its four fields. */
  lemma SplitAtomLayout(r: string, x: string, y: string, z: string)
    requires r != [] && NoSpace(r) && x != [] && NoSpace(x) && y != [] && NoSpace(y) && z != [] && NoSpace(z)
    ensures Split(" " + r + Field(x, Field(y, Field(z, " \n")))) == [r, x, y, z]
  {
    var tail3 := Field(z, " \n");
    var tail2 := Field(y, tail3);
    var tail1 := Field(x, tail2);
    assert Split(tail3) == [z] by {
      SplitPadded(z, " \n");
      SplitLineEnd();
    }
    assert Split(tail2) == [y, z] by {
      SplitPadded(y, tail3);
    }
    assert Split(tail1) == [x, y, z] by {
      SplitPadded(x, tail2);
    }
    assert " " + r + tail1 == [' '] + (r + tail1);
    assert Split([' '] + (r + tail1)) == Split(r + tail1) by {
      SplitSkipsSpace(' ', r + tail1);
    }
    assert Split(r + tail1) == [r] + [x, y, z] by {
      SplitToken(r, tail1);
    }
  }

  /** Splitting a written atom line gives back its four fields: the name
      record and the three rendered coordinates. */
  lemma AtomLineFields(toks: seq<string>, fmt: string -> Option<string>)
    requires forall k | 0 <= k < |toks| :: toks[k] != [] && NoSpace(toks[k])
    requires RendersTokens(fmt)
    requires AtomLine(toks, fmt).Success?
    ensures |toks| >= 8
    ensures Split(AtomLine(toks, fmt).value)
         == [AtomRecord(toks), fmt(toks[5]).value, fmt(toks[6]).value, fmt(toks[7]).value]
  {
    AtomRecordIsToken(toks);
    SplitAtomLayout(AtomRecord(toks), fmt(toks[5]).value, fmt(toks[6]).value, fmt(toks[7]).value);
  }

  /** One iteration of the loop of readPDB. */
  function PdbStep(fmt: string -> Option<string>, atoms: seq<string>, line: string): Result<seq<string>> {
    if !Contains(line, "ATOM") then Success(atoms)
    else
      match AtomLine(Split(line), fmt)
      case Failure(e) => Failure(e)
      case Success(a) => Success(atoms + [a])
  }

  /** readPDB as a function of the file system. */
  function PdbAtomsOf(fs: FileSystem, filename: string, fmt: string -> Option<string>): Result<seq<string>> {
    if filename !in fs then Failure(FileNotFound(filename))
    else Scan(fs[filename], [], (atoms, line) => PdbStep(fmt, atoms, line))
  }

  /** The lines containing 'ATOM', in file order. */
  function AtomLines(lines: seq<string>): seq<string> {
    if lines == [] then []
    else
      var l := lines[|lines| - 1];
      AtomLines(lines[..|lines| - 1]) + (if Contains(l, "ATOM") then [l] else [])
  }

  /** readPDB succeeds iff every ATOM line is well-formed, and then yields
      exactly one atom line per ATOM line, in file order, and none for the
      other lines. */
  lemma {:induction false} ReadPdbOnePerAtomLine(lines: seq<string>, fmt: string -> Option<string>)
    ensures var r := Scan(lines, [], (atoms, line) => PdbStep(fmt, atoms, line));
      && (r.Success? <==> forall l | l in AtomLines(lines) :: AtomLine(Split(l), fmt).Success?)
      && (r.Success? ==>
            |r.value| == |AtomLines(lines)|
            && forall k | 0 <= k < |r.value| :: r.value[k] == AtomLine(Split(AtomLines(lines)[k]), fmt).value)
  {
    if lines != [] {
      var n := |lines| - 1;
      var pre, l := lines[..n], lines[n];
      var step := (atoms, line) => PdbStep(fmt, atoms, line);
      ReadPdbOnePerAtomLine(pre, fmt);
      assert AtomLines(lines) == AtomLines(pre) + (if Contains(l, "ATOM") then [l] else []);
      var r0 := Scan(pre, [], step);
      assert Scan(lines, [], step) == if r0.Failure? then Failure(r0.error) else step(r0.value, l);
      if r0.Success? && Contains(l, "ATOM") && AtomLine(Split(l), fmt).Success? {
        var r := Scan(lines, [], step).value;
        assert r == r0.value + [AtomLine(Split(l), fmt).value];
        assert AtomLines(lines)[|r| - 1] == l;
      }
    }
  }

  /** readPDB: one atom line per line containing 'ATOM'. */
  method ReadPDB(fs: FileSystem, filename: string, fmt: string -> Option<string>) returns (r: Result<seq<string>>)
    ensures r == PdbAtomsOf(fs, filename, fmt)
  {
    if filename !in fs {
      return Failure(FileNotFound(filename));
    }
    var lines := fs[filename];
    ghost var step := (atoms, line) => PdbStep(fmt, atoms, line);
    var atomData: seq<string> := [];
    var i := 0;
    while i < |lines|
      invariant 0 <= i <= |lines|
      invariant Scan(lines[..i], [], step) == Success(atomData)
    {
      var line := lines[i];
      ScanNext(lines, i, [], step, atomData);
      if Contains(line, "ATOM") {
        var a := AtomLine(Split(line), fmt);
        if a.Failure? {
          ScanStops(lines, i + 1, [], step);
          return Failure(a.error);
        }
        atomData := atomData + [a.value];
      }
      i := i + 1;
    }
    assert lines[..i] == lines;
    r := Success(atomData);
  }

  // ---------------------------------------------------------------------------
  // writeGaussianInput and generateGaussianInput

  /** How the title line is written: `Title - {title}` in
      GaussianScripts/GaussianInputGen.py, the bare `{title}` in the other two
      copies. */
  datatype TitleStyle = Labelled | Bare

  /** The settings every generated file shares. */
  datatype JobSettings = JobSettings(
    ncores: string, theory: string, basisSet: string, keywords: string, charge: string, multiplicity: string)

  /** A file written: its name and its lines. */
  datatype FileWrite = FileWrite(name: string, lines: seq<string>)

  function TitleLine(style: TitleStyle, title: string): string {
    match style
    case Labelled => "Title - " + title + " \n"
    case Bare => title + " \n"
  }

  /** The checkpoint file named after the input file. */
  function ChkName(filename: string): string {
    ReplaceAll(filename, "com", "chk")
  }

  function ChargeLine(job: JobSettings): string {
    job.charge + " " + job.multiplicity + " \n"
  }

  /** writeGaussianInput: the lines of the input file, section by section. The
      atom lines are copied unchanged and in order after the seven header lines,
      and the file ends with one blank line. */
  function GaussianInput(filename: string, title: string, atoms: seq<string>, job: JobSettings, style: TitleStyle): (f: seq<string>)
    ensures |f| == |atoms| + 8
    ensures f[7..7 + |atoms|] == atoms && f[|f| - 1] == "\n"
  {
    [ "%nprocshared=" + job.ncores + " \n",
      "%chk=" + ChkName(filename) + " \n",
      "# " + job.theory + "/" + job.basisSet + " " + job.keywords + " \n",
      "\n",
      TitleLine(style, title),
      "\n",
      ChargeLine(job) ]
    + atoms + ["\n"]
  }

  /** writeGaussianInput: the seven header lines, in their fixed order: the
      core count, the checkpoint file (the input name with every "com" turned
      into "chk"), the route line `# theory/basis keywords`, a blank, the title,
      a blank, then charge and multiplicity. */
  lemma GaussianInputLayout(filename: string, title: string, atoms: seq<string>, job: JobSettings, style: TitleStyle)
    ensures var f := GaussianInput(filename, title, atoms, job, style);
      && f[0] == "%nprocshared=" + job.ncores + " \n"
      && f[1] == "%chk=" + ChkName(filename) + " \n"
      && f[2] == "# " + job.theory + "/" + job.basisSet + " " + job.keywords + " \n"
      && f[3] == "\n" && f[4] == TitleLine(style, title) && f[5] == "\n" && f[6] == ChargeLine(job)
  {
  }

  /** The checkpoint name of a default input name. */
  lemma ChkNameExample()
    ensures ChkName("run-1.com") == "run-1.chk"
  {
    assert ReplaceAll(".com", "com", "chk") == ".chk";
    assert ReplaceAll("-1.com", "com", "chk") == "-1.chk";
    assert ReplaceAll("un-1.com", "com", "chk") == "un-1.chk";
  }

  /** generateGaussianInput: for each (pdb file, input name, title) of the zip
      of the three lists, reads the structure and writes one input file; the
      zip stops at the shortest list, and the first unreadable structure file
      ends the run. */
  method GenerateGaussianInput(
    fs: FileSystem, pdbFilenames: seq<string>, inputNames: seq<string>, titles: seq<string>,
    job: JobSettings, style: TitleStyle, fmt: string -> Option<string>)
    returns (written: seq<FileWrite>, err: Option<Error>)
    ensures var n := Min3(|pdbFilenames|, |inputNames|, |titles|);
      && |written| <= n
      && (err.None? <==> |written| == n)
      && (err.Some? ==> PdbAtomsOf(fs, pdbFilenames[|written|], fmt) == Failure(err.value))
    ensures forall i | 0 <= i < |written| ::
      PdbAtomsOf(fs, pdbFilenames[i], fmt).Success?
      && written[i] == FileWrite(inputNames[i],
           GaussianInput(inputNames[i], titles[i], PdbAtomsOf(fs, pdbFilenames[i], fmt).value, job, style))
  {
    var n := Min3(|pdbFilenames|, |inputNames|, |titles|);
    written := [];
    var i := 0;
    while i < n
      invariant 0 <= i <= n
      invariant |written| == i
      invariant forall j | 0 <= j < i ::
        PdbAtomsOf(fs, pdbFilenames[j], fmt).Success?
        && written[j] == FileWrite(inputNames[j],
             GaussianInput(inputNames[j], titles[j], PdbAtomsOf(fs, pdbFilenames[j], fmt).value, job, style))
    {
      var pdbName, inputName, title := pdbFilenames[i], inputNames[i], titles[i];
      var atomData := ReadPDB(fs, pdbName, fmt);
      if atomData.Failure? {
        return written, Some(atomData.error);
      }
      written := written + [FileWrite(inputName, GaussianInput(inputName, title, atomData.value, job, style))];
      i := i + 1;
    }
    err := None;
  }

  function Min3(a: nat, b: nat, c: nat): (m: nat)
    ensures m <= a && m <= b && m <= c && (m == a || m == b || m == c)
  {
    if a <= b && a <= c then a else if b <= c then b else c
  }

  /** Naming followed by generation: the k-th input file written is named
      `{prefix}-{k+1}.com`, so no two generated files share a name. */
  lemma GeneratedNamesDistinct(prefix: string, inputNames: seq<string>, written: seq<FileWrite>)
    requires forall k | 0 <= k < |inputNames| :: inputNames[k] == InputName(prefix, k + 1)
    requires |written| <= |inputNames|
    requires forall i | 0 <= i < |written| :: written[i].name == inputNames[i]
    ensures forall i, j | 0 <= i < j < |written| :: written[i].name != written[j].name
  {
    forall i, j | 0 <= i < j < |written| ensures written[i].name != written[j].name {
      InputNamesDistinct(prefix, i + 1, j + 1);
    }
  }
}
