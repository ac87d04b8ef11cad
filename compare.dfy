/** The `compare` command (CLI/compare.py): choose two latent spaces from the
    arguments, measure their distance and write one record to standard
    output or to a file. */
module Compare {
  import opened Results
  import opened Metrics
  import PyText

  /** The output file modes the argument parser admits: `'a'` and `'w'`. */
  datatype Mode = Append | Overwrite

  /** The parsed arguments `run` reads. `helpText` is the parser's formatted
      help, which `main` stores in the arguments before calling `run`. */
  datatype Args = Args(
    showNames: bool,
    firstFamily: string,
    secondFamily: string,
    nl1: string,
    nl2: string,
    outputFile: string,
    outputFormat: string,
    outputMode: Mode,
    helpText: string)

  /** Where a vector is read from: a packaged family file
      `Latent_spaces/<family>.txt`, or a file named by the user. */
  datatype Source = Packaged(family: string) | NewFile(path: string)

  /** The decision the `if`/`elif` chain of `run` takes. `Undefined` is the
      branch that loads the packaged family and the new file and then refers
      to a name that is never assigned, and so raises NameError. */
  datatype Selection =
    | ListNames
    | ShowHelp
    | Undefined(name: string, known: Source, file: Source)
    | Pair(first: Source, firstName: string, second: Source, secondName: string)
  {
    /** The branch with only the second family loads that family before the
        new file it compares it with. */
    predicate SecondLoadedFirst()
    {
      Pair? && first.NewFile? && second.Packaged?
    }

    /** The files the branch loads, in the order it loads them. */
    function Loads(): (srcs: seq<Source>)
      ensures Pair? ==> multiset(srcs) == multiset{first, second}
      ensures Undefined? ==> srcs == [known, file]
      ensures ListNames? || ShowHelp? ==> srcs == []
    {
      match this
      case ListNames => []
      case ShowHelp => []
      case Undefined(_, known, file) => [known, file]
      case Pair(first, _, second, _) => if SecondLoadedFirst() then [second, first] else [first, second]
    }
  }

  /** A distance result, as the command prints or writes it. */
  datatype CompareOutput = CompareOutput(a1: string, a2: string, distanceMetric: string, result: string)
  {
    /** The line `to_stdout` prints. */
    function TextRecord(): (line: string)
    {
      distanceMetric + " distance: " + result
    }

    /** The CSV record of `to_file`. */
    function CsvRecord(): (line: string)
    {
      a1 + "," + a2 + "," + distanceMetric + "," + result
    }

    /** What `to_file` writes: `"text"` gives the text record, any other
        format the CSV record, each followed by a newline. */
    function FileLine(ftype: string): (line: string)
    {
      (if ftype == "text" then TextRecord() else CsvRecord()) + "\n"
    }
  }

  /** The text written to a file is the stdout line plus a newline. This only
      unfolds `FileLine` and carries no proof weight; what ties `to_file` to it
      is `ToFile` being proved to write `FileLine`. */
  lemma TextFileLineIsStdoutLine(out: CompareOutput)
    ensures out.FileLine("text") == out.TextRecord() + "\n"
  {
  }

  /** A CSV line ends in its newline, and when no field holds a comma,
      splitting the rest at commas gives back `a1`, `a2`, the metric and the
      result, in that order. */
  lemma CsvFileLineFields(out: CompareOutput, ftype: string)
    requires ftype != "text"
    requires ',' !in out.a1 && ',' !in out.a2 && ',' !in out.distanceMetric && ',' !in out.result
    ensures var line := out.FileLine(ftype);
      |line| > 0 && line[|line| - 1] == '\n' &&
      PyText.Split(line[..|line| - 1], ',') == [out.a1, out.a2, out.distanceMetric, out.result]
  {
    var fields := [out.a1, out.a2, out.distanceMetric, out.result];
    assert PyText.Join(fields[3..], ',') == out.result;
    assert PyText.Join(fields[2..], ',') == out.distanceMetric + [','] + out.result;
    assert PyText.Join(fields[1..], ',') == out.a2 + [','] + (out.distanceMetric + [','] + out.result);
    assert PyText.Join(fields, ',') == out.CsvRecord();
    PyText.SplitJoin(fields, ',');
    var line := out.FileLine(ftype);
    assert line[..|line| - 1] == out.CsvRecord();
  }

  /** The process's standard output, as the lines printed to it, and the file
      system, as the text of each file. */
  class Io {
    var stdout: seq<string>
    var files: map<string, string>

    constructor (files: map<string, string>)
      ensures stdout == [] && this.files == files
    {
      stdout := [];
      this.files := files;
    }

    /** `print(line)`. */
    method Print(line: string)
      modifies this
      ensures stdout == old(stdout) + [line]
      ensures files == old(files)
    {
      stdout := stdout + [line];
    }

    /** `open(fname, mode).write(text)`: `'a'` keeps what the file held (an
        absent file starts empty), `'w'` truncates it first. */
    method Write(fname: string, mode: Mode, text: string)
      modifies this
      ensures files == old(files)[fname := ContentsAfterOpen(old(files), fname, mode) + text]
      ensures stdout == old(stdout)
    {
      files := files[fname := ContentsAfterOpen(files, fname, mode) + text];
    }
  }

  /** What a file holds right after `open(fname, mode)`. */
  function ContentsAfterOpen(files: map<string, string>, fname: string, mode: Mode): (text: string)
  {
    if mode == Append && fname in files then files[fname] else ""
  }

  /** `CompareOutput.to_stdout`. */
  method ToStdout(out: CompareOutput, io: Io)
    modifies io
    ensures io.stdout == old(io.stdout) + [out.TextRecord()]
    ensures io.files == old(io.files)
  {
    io.Print(out.distanceMetric + " distance: " + out.result);
  }

  /** `CompareOutput.to_file`: mode `'a'` adds the record after what the file
      held, mode `'w'` leaves the record as the whole file; no other file and
      not the standard output changes. */
  method ToFile(out: CompareOutput, fname: string, ftype: string, mode: Mode, io: Io)
    modifies io
    ensures mode == Append ==>
      io.files == old(io.files)[fname := (if fname in old(io.files) then old(io.files)[fname] else "") + out.FileLine(ftype)]
    ensures mode == Overwrite ==> io.files == old(io.files)[fname := out.FileLine(ftype)]
    ensures io.stdout == old(io.stdout)
  {
    var line;
    if ftype == "text" {
      line := out.distanceMetric + " distance: " + out.result + "\n";
    } else {
      line := out.a1 + "," + out.a2 + "," + out.distanceMetric + "," + out.result + "\n";
    }
    assert line == out.FileLine(ftype);
    io.Write(fname, mode, line);
    assert "" + line == line;
  }

  /** The decision `run` takes, case by case. */
  ghost predicate Decides(args: Args, sel: Selection)
  {
    var n1, n2, nl1, nl2 := args.firstFamily, args.secondFamily, args.nl1, args.nl2;
    // the names flag wins over everything else
    (args.showNames ==> sel == ListNames) &&
    // help exactly when no new latent file is given and a family name is missing
    (!args.showNames ==> (sel == ShowHelp <==> nl1 == "" && nl2 == "" && (n1 == "" || n2 == ""))) &&
    // two family names: both packaged vectors, in order; new files are ignored
    (!args.showNames && n1 != "" && n2 != "" ==>
      sel == Pair(Packaged(n1), n1, Packaged(n2), n2)) &&
    // only the first family, with a new file: both are loaded, and the second
    // name is undefined
    (!args.showNames && n1 != "" && n2 == "" && (nl1 != "" || nl2 != "") ==>
      sel == Undefined(if nl1 != "" then "n11" else "n12", Packaged(n1), NewFile(if nl1 != "" then nl1 else nl2))) &&
    // only the second family, with a new file: nl1 if given, else nl2, named after its file
    (!args.showNames && n1 == "" && n2 != "" && (nl1 != "" || nl2 != "") ==>
      var path := if nl1 != "" then nl1 else nl2;
      sel == Pair(NewFile(path), path, Packaged(n2), n2)) &&
    // no family name: the two new files
    (!args.showNames && n1 == "" && n2 == "" && (nl1 != "" || nl2 != "") ==>
      sel == Pair(NewFile(nl1), nl1, NewFile(nl2), nl2))
  }

  /** The cases cover every input: `Decides` leaves one selection. */
  lemma DecidesUnique(args: Args, sel1: Selection, sel2: Selection)
    requires Decides(args, sel1) && Decides(args, sel2)
    ensures sel1 == sel2
  {
  }

  /** The `if`/`elif` chain of `run` that decides what to compare. */
  method SelectInputs(args: Args) returns (sel: Selection)
    ensures Decides(args, sel)
  {
    var n1 := args.firstFamily;
    var n2 := args.firstFamily;
    n2 := args.secondFamily;
    var namesFlag := args.showNames;
    var nl1 := args.nl1;
    var nl2 := args.nl2;
    if namesFlag {
      return ListNames;
    }
    if (n1 == "" && (nl1 == "" && nl2 == "")) || (n2 == "" && (nl1 == "" && nl2 == "")) {
      return ShowHelp;
    } else if n1 != "" && n2 != "" {
      sel := Pair(Packaged(n1), n1, Packaged(n2), n2);
    } else if n1 != "" {
      if nl1 != "" {
        sel := Undefined("n11", Packaged(n1), NewFile(nl1));
      } else {
        sel := Undefined("n12", Packaged(n1), NewFile(nl2));
      }
    } else if n2 != "" {
      var a2, a2Name := Packaged(n2), n2;
      var a1, a1Name;
      if nl1 != "" {
        a1, a1Name := NewFile(nl1), nl1;
      } else {
        a1, a1Name := NewFile(nl2), nl2;
      }
      sel := Pair(a1, a1Name, a2, a2Name);
    } else {
      sel := Pair(NewFile(nl1), nl1, NewFile(nl2), nl2);
    }
  }

  /** Why a comparison did not happen. */
  datatype RunError = NameError(name: string) | LoadError(source: Source)

  /** What `run` did. */
  datatype RunOutcome = NamesListed | HelpShown | Compared(output: CompareOutput) | Failed(error: RunError)

  /** The first of `srcs` that fails to load, if any. */
  function FirstFailedLoad(srcs: seq<Source>, load: Source -> Option<Vector>): (r: Option<Source>)
    ensures r.None? <==> forall i :: 0 <= i < |srcs| ==> load(srcs[i]).Some?
    ensures r.Some? ==>
      exists i ::
        0 <= i < |srcs| && srcs[i] == r.value && load(srcs[i]).None? &&
        forall j :: 0 <= j < i ==> load(srcs[j]).Some?
  {
    if srcs == [] then None
    else if load(srcs[0]).None? then Some(srcs[0])
    else FirstFailedLoad(srcs[1..], load)
  }

  /** The output the comparison of a loaded pair produces. */
  function PairOutput(sel: Selection, metric: Metric, load: Source -> Option<Vector>, show: real -> string): (out: CompareOutput)
    requires sel.Pair? && load(sel.first).Some? && load(sel.second).Some?
  {
    CompareOutput(sel.firstName, sel.secondName, metric.name,
      show(TwoArgCall(metric, load(sel.first).value, load(sel.second).value)))
  }

  /** The branches of `run` after the decision: load what the branch needs,
      in its order, then compare and write, or fail. */
  method CarryOut(args: Args, sel: Selection, metric: Metric, load: Source -> Option<Vector>, show: real -> string, io: Io)
    returns (outcome: RunOutcome)
    modifies io
    ensures outcome == NamesListed <==> sel == ListNames
    ensures outcome == HelpShown <==> sel == ShowHelp
    ensures FirstFailedLoad(sel.Loads(), load).Some? ==>
      outcome == Failed(LoadError(FirstFailedLoad(sel.Loads(), load).value))
    ensures sel.Undefined? && load(sel.known).Some? && load(sel.file).Some? ==>
      outcome == Failed(NameError(sel.name))
    ensures sel.Pair? && load(sel.first).Some? && load(sel.second).Some? ==>
      outcome == Compared(PairOutput(sel, metric, load, show))
    ensures outcome.HelpShown? ==> io.stdout == old(io.stdout) + [args.helpText] && io.files == old(io.files)
    ensures outcome.Compared? && args.outputFile != "" ==>
      io.stdout == old(io.stdout) &&
      io.files == old(io.files)[args.outputFile :=
        ContentsAfterOpen(old(io.files), args.outputFile, args.outputMode) + outcome.output.FileLine(args.outputFormat)]
    ensures outcome.Compared? && args.outputFile == "" ==>
      io.stdout == old(io.stdout) + [outcome.output.TextRecord()] && io.files == old(io.files)
    ensures !outcome.Compared? && !outcome.HelpShown? ==> io.stdout == old(io.stdout) && io.files == old(io.files)
  {
    match sel {
      case ListNames =>
        return NamesListed;
      case ShowHelp =>
        io.Print(args.helpText);
        return HelpShown;
      case Undefined(name, known, file) =>
        var a1 := load(known);
        if a1.None? {
          return Failed(LoadError(known));
        }
        var a2 := load(file);
        if a2.None? {
          return Failed(LoadError(file));
        }
        return Failed(NameError(name));
      case Pair(s1, name1, s2, name2) =>
        var a1, a2;
        if sel.SecondLoadedFirst() {
          a2 := load(s2);
          if a2.None? {
            return Failed(LoadError(s2));
          }
          a1 := load(s1);
          if a1.None? {
            return Failed(LoadError(s1));
          }
        } else {
          a1 := load(s1);
          if a1.None? {
            return Failed(LoadError(s1));
          }
          a2 := load(s2);
          if a2.None? {
            return Failed(LoadError(s2));
          }
        }
        var res := CompareOutput(name1, name2, metric.name, show(TwoArgCall(metric, a1.value, a2.value)));
        if args.outputFile != "" {
          ToFile(res, args.outputFile, args.outputFormat, args.outputMode, io);
          assert io.files[args.outputFile] ==
            ContentsAfterOpen(old(io.files), args.outputFile, args.outputMode) + res.FileLine(args.outputFormat);
        } else {
          ToStdout(res, io);
        }
        return Compared(res);
    }
  }

  /** `run`, with `np.loadtxt` as `load`, `str` on a float as `show` and the
      metric already looked up. The metric is called with two arguments, so
      `p_norm` has no effect here. */
  method Run(args: Args, metric: Metric, load: Source -> Option<Vector>, show: real -> string, io: Io)
    returns (outcome: RunOutcome)
    modifies io
    ensures outcome == NamesListed <==> args.showNames
    ensures outcome == HelpShown <==> Decides(args, ShowHelp)
    // a decided branch whose loads do not all succeed fails on the first that does not
    ensures forall sel ::
      Decides(args, sel) && FirstFailedLoad(sel.Loads(), load).Some? ==>
        outcome == Failed(LoadError(FirstFailedLoad(sel.Loads(), load).value))
    // once its files are loaded, the `n1`-only branch fails on the undefined name
    ensures forall name, known, file ::
      Decides(args, Undefined(name, known, file)) && load(known).Some? && load(file).Some? ==>
        outcome == Failed(NameError(name))
    // once both are loaded, a decided pair is compared
    ensures forall s1, n1, s2, n2 ::
      Decides(args, Pair(s1, n1, s2, n2)) && load(s1).Some? && load(s2).Some? ==>
        outcome == Compared(CompareOutput(n1, n2, metric.name, show(TwoArgCall(metric, load(s1).value, load(s2).value))))
    ensures outcome.HelpShown? ==> io.stdout == old(io.stdout) + [args.helpText] && io.files == old(io.files)
    ensures outcome.Compared? && args.outputFile != "" ==>
      io.stdout == old(io.stdout) &&
      io.files == old(io.files)[args.outputFile :=
        ContentsAfterOpen(old(io.files), args.outputFile, args.outputMode) + outcome.output.FileLine(args.outputFormat)]
    ensures outcome.Compared? && args.outputFile == "" ==>
      io.stdout == old(io.stdout) + [outcome.output.TextRecord()] && io.files == old(io.files)
    ensures !outcome.Compared? && !outcome.HelpShown? ==> io.stdout == old(io.stdout) && io.files == old(io.files)
  {
    var sel := SelectInputs(args);
    forall sel' | Decides(args, sel') ensures sel' == sel {
      DecidesUnique(args, sel', sel);
    }
    outcome := CarryOut(args, sel, metric, load, show, io);
  }
}
