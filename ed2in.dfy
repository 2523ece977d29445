/** Preparing one ED2 simulation: the run's namelist flags are a copy of
    the common flags with the per-run values set on top; the ED2IN
    template is rewritten line by line, each `NL%<flag> = ...` line of a
    flag the run sets being replaced by that flag's value at the same
    indent; and the batch command and its options are joined into the
    strings handed to sbatch, which is called only when submitting was
    asked for.  Argument parsing, copying the template, the XML parameter
    file and the calls to the shell are not modelled: their results are
    the fields of Setup. */
module Ed2in {
  import opened Common

  // ---------------------------------------------------------------------
  // The flags
  // ---------------------------------------------------------------------

  /** A flag's value: the script stores strings, and a few integers. */
  datatype FlagValue = Text(text: string) | Number(n: int)

  /** f"{value}". */
  function Render(v: FlagValue): string {
    match v
    case Text(t) => t
    case Number(n) => IntToString(n)
  }

  /** The job's name; every file of the job is named after it. */
  const JobName: string := "test_ifort"

  /** What the script takes from its arguments and its constants. */
  datatype Setup = Setup(
    outputDir: string,    // where the simulations write
    workDir: string,      // where ED2IN and the XML file go
    ed2Exec: string,      // the ED2 executable
    historyFile: string,  // SFILIN, already quoted
    metHeader: string,    // ED_MET_DRIVER_DB, already quoted
    simTime: string,      // --sim_time
    cpu: string,          // --cpu, as rendered
    mailUser: string,
    submit: bool)         // --submit

  /** The folder of the simulation and the XML file it uses. */
  function SimDir(setup: Setup): string {
    setup.outputDir + JobName + "/"
  }

  function XmlName(setup: Setup): string {
    setup.workDir + JobName + ".xml"
  }

  /** The run's flags: a copy of the common ones with the per-run values
      set on top, in the order the script sets them. */
  function RunFlags(common: map<string, FlagValue>, setup: Setup, iallom: int): map<string, FlagValue> {
    common
      ["IALLOM" := Number(iallom)]
      ["FFILOUT" := Text("'" + SimDir(setup) + JobName + "'")]
      ["SFILOUT" := Text("'" + SimDir(setup) + JobName + "'")]
      ["SFILIN" := Text(setup.historyFile)]
      ["ED_MET_DRIVER_DB" := Text(setup.metHeader)]
      ["IEDCNFGF" := Text("'" + XmlName(setup) + "'")]
  }

  /** The flags every run sets. */
  const RunKeys: set<string> := {"IALLOM", "FFILOUT", "SFILOUT", "SFILIN", "ED_MET_DRIVER_DB", "IEDCNFGF"}

  /** The run's flags are the common flags, each kept unless the run sets
      it, plus the six flags of the run: the allometry scheme, both output
      prefixes inside the simulation folder, the history file, the
      meteorology header and the XML file. */
  lemma RunFlagsFacts(common: map<string, FlagValue>, setup: Setup, iallom: int)
    ensures var run := RunFlags(common, setup, iallom);
      && run.Keys == common.Keys + RunKeys
      && (forall key :: key in common && key !in RunKeys ==> run[key] == common[key])
      && run["IALLOM"] == Number(iallom)
      && run["FFILOUT"] == run["SFILOUT"] == Text("'" + setup.outputDir + JobName + "/" + JobName + "'")
      && run["SFILIN"] == Text(setup.historyFile)
      && run["ED_MET_DRIVER_DB"] == Text(setup.metHeader)
      && run["IEDCNFGF"] == Text("'" + setup.workDir + JobName + ".xml" + "'")
  {
    assert SimDir(setup) + JobName == setup.outputDir + JobName + "/" + JobName;
  }

  /** A dict of flags, as the script changes it in place. */
  class FlagTable {
    var entries: map<string, FlagValue>

    constructor (entries: map<string, FlagValue>)
      ensures this.entries == entries
    {
      this.entries := entries;
    }

    /** dict.copy(): a new dict with the same entries. */
    method Copy() returns (c: FlagTable)
      ensures fresh(c) && c.entries == entries
    {
      c := new FlagTable(entries);
    }

    /** d[key] = value. */
    method Set(key: string, value: FlagValue)
      modifies this
      ensures entries == old(entries)[key := value]
    {
      entries := entries[key := value];
    }
  }

  /** ED2IN_flags_run: a copy of the common flags, then the run's values
      set one by one; being a fresh copy, the common flags are left as they
      were. */
  method PrepareRunFlags(common: FlagTable, setup: Setup, iallom: int) returns (run: FlagTable)
    ensures fresh(run)
    ensures run.entries == RunFlags(common.entries, setup, iallom)
    ensures common.entries == old(common.entries)
  {
    run := common.Copy();
    run.Set("IALLOM", Number(iallom));
    run.Set("FFILOUT", Text("'" + SimDir(setup) + JobName + "'"));
    run.Set("SFILOUT", Text("'" + SimDir(setup) + JobName + "'"));
    run.Set("SFILIN", Text(setup.historyFile));
    run.Set("ED_MET_DRIVER_DB", Text(setup.metHeader));
    run.Set("IEDCNFGF", Text("'" + XmlName(setup) + "'"));
  }

  // ---------------------------------------------------------------------
  // Rewriting ED2IN
  // ---------------------------------------------------------------------

  /** str.isspace() for one character: the characters str.lstrip() drops. */
  predicate IsSpace(c: char) {
    || c == ' ' || c == '\t' || c == '\n' || c == '\r'
    || c as int == 0x0B || c as int == 0x0C || 0x1C <= c as int <= 0x1F
    || c as int == 0x85 || c as int == 0xA0 || c as int == 0x1680
    || 0x2000 <= c as int <= 0x200A || c as int == 0x2028 || c as int == 0x2029
    || c as int == 0x202F || c as int == 0x205F || c as int == 0x3000
  }

  /** line.lstrip(). */
  function LStrip(s: string): (r: string)
    ensures |r| <= |s| && r == s[|s| - |r|..]
    ensures |r| == 0 || !IsSpace(r[0])
    ensures forall i :: 0 <= i < |s| - |r| ==> IsSpace(s[i])
    decreases |s|
  {
    if |s| > 0 && IsSpace(s[0]) then LStrip(s[1..]) else s
  }

  /** num_of_space: how many leading whitespace characters the line has. */
  function Indent(line: string): nat {
    |line| - |LStrip(line)|
  }

  /** A namelist flag line: after the indent it starts with "NL". */
  predicate IsFlagLine(line: string) {
    StartsNL(LStrip(line))
  }

  predicate StartsNL(body: string) {
    |body| >= 2 && body[..2] == "NL"
  }

  /** The flag named on a flag line: the first space-separated token after
      the indent, without its first three characters (the "NL%"). */
  function FlagOf(line: string): string {
    FlagOfBody(LStrip(line))
  }

  function FlagOfBody(body: string): string {
    var token := Split(body, ' ')[0];
    if |token| <= 3 then "" else token[3..]
  }

  function Spaces(n: nat): (r: string)
    ensures |r| == n && forall i :: 0 <= i < n ==> r[i] == ' '
  {
    seq(n, _ => ' ')
  }

  /** The line written for a flag the run sets, after its indent. */
  function FlagBody(flag: string, value: FlagValue): string {
    ("NL%" + flag) + (" = " + Render(value) + "\n")
  }

  /** The line written for a flag the run sets. */
  function FlagLine(indent: nat, flag: string, value: FlagValue): string {
    Spaces(indent) + FlagBody(flag, value)
  }

  /** One line of ED2IN as written back. */
  function RewriteLine(line: string, flags: map<string, FlagValue>): string {
    if !IsFlagLine(line) then line
    else if FlagOf(line) in flags then FlagLine(Indent(line), FlagOf(line), flags[FlagOf(line)])
    else line
  }

  lemma {:induction false} StripSpaces(n: nat, rest: string)
    requires |rest| >= 1 && !IsSpace(rest[0])
    ensures LStrip(Spaces(n) + rest) == rest
    decreases n
  {
    if n > 0 {
      var s := Spaces(n) + rest;
      assert s[1..] == Spaces(n - 1) + rest;
      StripSpaces(n - 1, rest);
    } else {
      assert Spaces(0) + rest == rest;
    }
  }

  /** The first space-separated token of a flag body is "NL%" and the flag. */
  lemma FlagBodyToken(flag: string, value: FlagValue)
    requires ' ' !in flag
    ensures Split(FlagBody(flag, value), ' ')[0] == "NL%" + flag
  {
    var head := "NL%" + flag;
    var tail := " = " + Render(value) + "\n";
    assert ' ' !in head;
    SplitAfterPrefix(head, tail, ' ');
    SplitLeading(tail, ' ');
    assert head + "" == head;
  }

  /** Below its indent the line written for a flag starts with "NL". */
  lemma FlagLineStrip(indent: nat, flag: string, value: FlagValue)
    ensures LStrip(FlagLine(indent, flag, value)) == FlagBody(flag, value)
    ensures Indent(FlagLine(indent, flag, value)) == indent
  {
    var body := FlagBody(flag, value);
    assert body[0] == 'N';
    StripSpaces(indent, body);
  }

  /** The line written for a flag is a flag line again: its indent is the
      given number of spaces and it names the same flag, provided the
      flag has no space in it (a flag read from a line never has). */
  lemma FlagLineFacts(indent: nat, flag: string, value: FlagValue)
    requires ' ' !in flag
    ensures var l := FlagLine(indent, flag, value);
      && LStrip(l) == FlagBody(flag, value)
      && Indent(l) == indent
      && IsFlagLine(l)
      && FlagOf(l) == flag
  {
    FlagLineStrip(indent, flag, value);
    FlagBodyFacts(flag, value);
  }

  /** The body of the line written for a flag starts with "NL" and names
      that flag. */
  lemma FlagBodyFacts(flag: string, value: FlagValue)
    requires ' ' !in flag
    ensures StartsNL(FlagBody(flag, value)) && FlagOfBody(FlagBody(flag, value)) == flag
  {
    var body := FlagBody(flag, value);
    assert body[..2] == "NL";
    FlagBodyToken(flag, value);
    assert ("NL%" + flag)[3..] == flag;
  }

  /** A flag read from a line contains no space. */
  lemma FlagHasNoSpace(line: string)
    ensures ' ' !in FlagOf(line)
  {
    var token := Split(LStrip(line), ' ')[0];
    assert FlagOf(line) == if |token| <= 3 then "" else token[3..];
    assert ' ' !in token;
    if |token| > 3 {
      assert forall i :: 0 <= i < |token[3..]| ==> token[3..][i] == token[i + 3];
    }
  }

  /** A line that is not a flag line, or names a flag the run does not
      set, is written back as it was; a flag line of a flag the run sets
      becomes `NL%<flag> = <value>` at the same indent, which is again a
      flag line for that flag, so rewriting it again changes nothing. */
  lemma RewriteLineFacts(line: string, flags: map<string, FlagValue>)
    ensures !IsFlagLine(line) || FlagOf(line) !in flags ==> RewriteLine(line, flags) == line
    ensures IsFlagLine(line) && FlagOf(line) in flags ==>
      var r := RewriteLine(line, flags);
      && Indent(r) == Indent(line)
      && IsFlagLine(r) && FlagOf(r) == FlagOf(line)
      && LStrip(r) == FlagBody(FlagOf(line), flags[FlagOf(line)])
    ensures RewriteLine(RewriteLine(line, flags), flags) == RewriteLine(line, flags)
  {
    if IsFlagLine(line) && FlagOf(line) in flags {
      var flag := FlagOf(line);
      FlagHasNoSpace(line);
      FlagLineFacts(Indent(line), flag, flags[flag]);
    }
  }

  /** The body of the loop over the lines of ED2IN: what is printed back
      for one line. */
  method RewriteOne(line: string, flags: FlagTable) returns (printed: string)
    ensures printed == RewriteLine(line, flags.entries)
  {
    var entries := flags.entries;
    var lineNoWs := LStrip(line);
    var numOfSpace := |line| - |lineNoWs|;
    if |lineNoWs| < 2 || lineNoWs[..2] != "NL" {
      return line;
    }
    var flag := FlagOfBody(lineNoWs);
    printed := line;
    if flag in entries {
      printed := FlagLine(numOfSpace, flag, entries[flag]);
    }
  }

  /** The in-place rewrite of ED2IN: every line of the template is written
      back once, in order, rewritten by the run's flags. */
  method RewriteFile(lines: seq<string>, flags: FlagTable) returns (out: seq<string>)
    ensures |out| == |lines|
    ensures forall i :: 0 <= i < |lines| ==> out[i] == RewriteLine(lines[i], flags.entries)
  {
    out := [];
    for i := 0 to |lines|
      invariant |out| == i
      invariant forall k :: 0 <= k < i ==> out[k] == RewriteLine(lines[k], flags.entries)
    {
      var printed := RewriteOne(lines[i], flags);
      out := out + [printed];
    }
  }

  // ---------------------------------------------------------------------
  // The job submission
  // ---------------------------------------------------------------------

  /** cmd_strs: what the batch job runs. */
  function Commands(setup: Setup): seq<string> {
    [ "ulimit -s unlimited",
      "export OMP_NUM_THREADS=1",
      "cd \\$SLURM_SUBMIT_DIR",
      "mpirun --mca btl tcp,self " + setup.ed2Exec + " -f ED2IN_" + JobName ]
  }

  /** " ; ".join(cmd_strs). */
  function CommandString(setup: Setup): string {
    Join(Commands(setup), " ; ")
  }

  /** slurm_opts. */
  function SlurmOptions(setup: Setup): seq<string> {
    [ "-o " + JobName + ".out",
      "-e " + JobName + ".err",
      "-J " + JobName,
      "-t " + setup.simTime,
      "--mem-per-cpu=1000",
      "-n 1",
      "-c " + setup.cpu,
      "--mail-type=END",
      "--mail-user=" + setup.mailUser ]
  }

  /** ' '.join(slurm_opts). */
  function SlurmOptionString(setup: Setup): string {
    Join(SlurmOptions(setup), " ")
  }

  /** The sbatch call, made only when submitting was asked for. */
  function Submission(setup: Setup): Option<string> {
    if setup.submit then Some("sbatch " + SlurmOptionString(setup) + " --wrap=\"" + CommandString(setup) + "\"")
    else None
  }

  /** The pieces of `p + " ; ".join(xs)` between semicolons: the first
      command after p, each followed (and all but the first preceded) by
      the space around the separator. */
  function Padded(p: string, xs: seq<string>): seq<string>
    requires |xs| >= 1
    decreases |xs|
  {
    if |xs| == 1 then [p + xs[0]] else [p + xs[0] + " "] + Padded(" ", xs[1..])
  }

  lemma {:induction false} SplitPadded(p: string, xs: seq<string>)
    requires |xs| >= 1
    requires ';' !in p && forall k :: 0 <= k < |xs| ==> ';' !in xs[k]
    ensures Split(p + Join(xs, " ; "), ';') == Padded(p, xs)
    decreases |xs|
  {
    if |xs| == 1 {
      assert ';' !in p + xs[0];
      SplitWithoutSeparator(p + xs[0], ';');
    } else {
      var rest := Join(xs[1..], " ; ");
      assert p + Join(xs, " ; ") == (p + xs[0] + " ") + [';'] + (" " + rest);
      SplitAppend(p + xs[0] + " ", " " + rest, ';');
      assert ';' !in p + xs[0] + " ";
      SplitWithoutSeparator(p + xs[0] + " ", ';');
      assert forall k :: 0 <= k < |xs[1..]| ==> ';' !in xs[1..][k];
      SplitPadded(" ", xs[1..]);
    }
  }

  /** No command of the job has a semicolon in it, provided the
      executable's path has none. */
  lemma CommandsWithoutSemicolon(setup: Setup)
    requires ';' !in setup.ed2Exec
    ensures forall k :: 0 <= k < |Commands(setup)| ==> ';' !in Commands(setup)[k]
  {
    var c := Commands(setup);
    assert ';' !in "mpirun --mca btl tcp,self " && ';' !in " -f ED2IN_" + JobName;
    assert ';' !in c[0] && ';' !in c[1] && ';' !in c[2] && ';' !in c[3];
  }

  /** The shell running the job sees the four commands, one between each
      pair of semicolons, provided the executable's path has no semicolon. */
  lemma CommandsSeparated(setup: Setup)
    requires ';' !in setup.ed2Exec
    ensures var c := Commands(setup);
      Split(CommandString(setup), ';') == [c[0] + " ", " " + c[1] + " ", " " + c[2] + " ", " " + c[3]]
  {
    var c := Commands(setup);
    CommandsWithoutSemicolon(setup);
    assert "" + CommandString(setup) == CommandString(setup);
    SplitPadded("", c);
    assert "" + c[0] + " " == c[0] + " ";
    assert c[1..][1..][1..] == [c[3]];
    assert Padded(" ", c[1..][1..]) == [" " + c[2] + " "] + Padded(" ", [c[3]]);
    assert Padded(" ", c[1..]) == [" " + c[1] + " "] + Padded(" ", c[1..][1..]);
  }

  /** The words of a space-joined list are the words of its entries, one
      entry after another. */
  function Words(xs: seq<string>): seq<string>
    decreases |xs|
  {
    if |xs| == 0 then [] else Split(xs[0], ' ') + Words(xs[1..])
  }

  lemma {:induction false} SplitJoinWords(xs: seq<string>)
    requires |xs| >= 1
    ensures Split(Join(xs, " "), ' ') == Words(xs)
    decreases |xs|
  {
    if |xs| == 1 {
      assert Words(xs) == Split(xs[0], ' ') + Words([]);
    } else {
      SplitJoinWords(xs[1..]);
      SplitAppend(xs[0], Join(xs[1..], " "), ' ');
      assert Join(xs, " ") == xs[0] + [' '] + Join(xs[1..], " ");
    }
  }

  /** sbatch is called exactly when submitting was asked for, with the
      options and, wrapped in double quotes, the command string; its
      words before --wrap are the options' words. */
  lemma SubmissionFacts(setup: Setup)
    ensures Submission(setup).Some? <==> setup.submit
    ensures Submission(setup).Some? ==>
      Submission(setup).value == "sbatch " + SlurmOptionString(setup) + " --wrap=\"" + CommandString(setup) + "\""
    ensures Split(SlurmOptionString(setup), ' ') == Words(SlurmOptions(setup))
  {
    SplitJoinWords(SlurmOptions(setup));
  }
}
