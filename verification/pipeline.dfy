/** The file locator, the tool check and the three-phase driver of ocr.py's
    entry point. The directory is the set of names it lists; the external
    tools are opaque, so whether a command creates its output is the
    parameter `succeeds`. */
module Pipeline {
  import opened Strings
  import opened Stages

  /** What launching `tesseract -v` gave: an exit status, or an exception
      (missing executable, permission error, ...). */
  datatype Probe = Exited(code: int) | Raised

  /** `check_tesseract`: the exit status of the probe, or -1 when launching it
      raised. Only a probe that ran and exited with 0 reports success. */
  function CheckTesseract(p: Probe): (status: int)
    ensures status == 0 <==> p == Exited(0)
    ensures p.Raised? ==> status == -1
  {
    match p
    case Exited(code) => code
    case Raised => -1
  }

  /** The names listed in the scanned directory. */
  type Directory = set<string>

  /** `findfiles(dir, pattern)`: the glob `*pattern` in one directory, i.e.
      the listed names that end with `pattern`. */
  function FindFiles(dir: Directory, pattern: string): (found: set<string>)
    ensures found <= dir
    ensures forall n :: n in found <==> n in dir && EndsWith(n, pattern)
  {
    set n | n in dir && EndsWith(n, pattern)
  }

  /** The names read by a list of commands. */
  function Inputs(cmds: seq<Command>): set<string>
  {
    set c | c in cmds :: c.input
  }

  /** The names created by those commands whose external tool succeeds. */
  function Outputs(cmds: seq<Command>, succeeds: Command -> bool): set<string>
  {
    set c | c in cmds && succeeds(c) :: Output(c)
  }

  /** The command a stage issues for a name, as a function of the name. */
  function Step(stage: Stage, cfg: Config): string -> Command
  {
    n => Build(stage, n, cfg)
  }

  /** `cmds` runs `step` once on every name of `batch`, in some order, and
      on nothing else. */
  predicate Enumerates(cmds: seq<Command>, step: string -> Command, batch: set<string>)
  {
    && Inputs(cmds) == batch
    && (forall i, j | 0 <= i < j < |cmds| :: cmds[i].input != cmds[j].input)
    && (forall c | c in cmds :: c == step(c.input))
  }

  /** Reference meaning of one phase, independent of the order of the batch:
      the outputs of the commands for the names of `batch` that succeed. */
  function PhaseOutputs(step: string -> Command, batch: set<string>, succeeds: Command -> bool): set<string>
  {
    set n | n in batch && succeeds(step(n)) :: Output(step(n))
  }

  /** The directory after scanning for `pattern` and running `stage` on each
      match. */
  function AfterPhase(dir: Directory, stage: Stage, pattern: string, cfg: Config,
                      succeeds: Command -> bool): Directory
  {
    dir + PhaseOutputs(Step(stage, cfg), FindFiles(dir, pattern), succeeds)
  }

  /** Phase A: `monochrome` over `*ext`. */
  function AfterMonochrome(dir: Directory, cfg: Config, succeeds: Command -> bool): Directory
  {
    AfterPhase(dir, Monochrome, cfg.ext, cfg, succeeds)
  }

  /** Phase B: `totif` over `*_m<ext>` in the directory left by phase A. */
  function AfterToTif(dir: Directory, cfg: Config, succeeds: Command -> bool): Directory
  {
    AfterPhase(AfterMonochrome(dir, cfg, succeeds), ToTif, "_m" + cfg.ext, cfg, succeeds)
  }

  /** Phase C: `totxt` over `*_m.tif` in the directory left by phase B. */
  function AfterToTxt(dir: Directory, cfg: Config, succeeds: Command -> bool): Directory
  {
    AfterPhase(AfterToTif(dir, cfg, succeeds), ToTxt, "_m.tif", cfg, succeeds)
  }

  /** Any order of a phase's commands creates the same names as the
      reference meaning. */
  lemma OutputsOfEnumeration(cmds: seq<Command>, step: string -> Command, batch: set<string>,
                             succeeds: Command -> bool)
    requires Enumerates(cmds, step, batch)
    ensures Outputs(cmds, succeeds) == PhaseOutputs(step, batch, succeeds)
  {
    forall x | x in PhaseOutputs(step, batch, succeeds)
      ensures x in Outputs(cmds, succeeds)
    {
      var n :| n in batch && succeeds(step(n)) && x == Output(step(n));
      assert n in Inputs(cmds);
      var c :| c in cmds && c.input == n;
    }
  }

  /** Appending a command whose input is new keeps the inputs distinct and
      adds its input and (on success) its output. */
  lemma AppendFresh(cmds: seq<Command>, c: Command, succeeds: Command -> bool)
    requires c.input !in Inputs(cmds)
    requires forall i, j | 0 <= i < j < |cmds| :: cmds[i].input != cmds[j].input
    ensures Inputs(cmds + [c]) == Inputs(cmds) + {c.input}
    ensures Outputs(cmds + [c], succeeds)
         == Outputs(cmds, succeeds) + (if succeeds(c) then {Output(c)} else {})
    ensures forall i, j | 0 <= i < j < |cmds + [c]| :: (cmds + [c])[i].input != (cmds + [c])[j].input
  {
    assert forall i | 0 <= i < |cmds| :: cmds[i] in cmds && (cmds + [c])[i] == cmds[i];
  }

  lemma OutputsConcat(a: seq<Command>, b: seq<Command>, succeeds: Command -> bool)
    ensures Outputs(a + b, succeeds) == Outputs(a, succeeds) + Outputs(b, succeeds)
  {
  }

  /** `for name in batch: stage(name)`: runs `step` on every name of `batch`,
      one at a time, in the order the listing yields them; each command whose
      tool succeeds adds its output to the directory. */
  method RunPhase(step: string -> Command, batch: set<string>, dir: Directory,
                  succeeds: Command -> bool)
    returns (issued: seq<Command>, after: Directory)
    requires forall n :: step(n).input == n
    ensures Enumerates(issued, step, batch)
    ensures after == dir + Outputs(issued, succeeds)
    ensures after == dir + PhaseOutputs(step, batch, succeeds)
  {
    issued := [];
    after := dir;
    var todo := batch;
    while todo != {}
      invariant todo <= batch
      invariant Inputs(issued) == batch - todo
      invariant forall i, j | 0 <= i < j < |issued| :: issued[i].input != issued[j].input
      invariant forall c | c in issued :: c == step(c.input)
      invariant after == dir + Outputs(issued, succeeds)
      decreases todo
    {
      var n :| n in todo;
      var c := step(n);
      AppendFresh(issued, c, succeeds);
      issued := issued + [c];
      if succeeds(c) {
        after := after + {Output(c)};
      }
      todo := todo - {n};
    }
    assert batch - todo == batch;
    OutputsOfEnumeration(issued, step, batch, succeeds);
  }

  /** How a run of the entry point ends: the gate refused, or all three
      phases ran and issued these commands. */
  datatype Run =
    | Aborted
    | Completed(monochrome: seq<Command>, totif: seq<Command>, totxt: seq<Command>)

  /** Every command a run hands to the shell, in the order it does so. */
  function Issued(run: Run): seq<Command>
  {
    match run
    case Aborted => []
    case Completed(a, b, c) => a + b + c
  }

  /** Position of a stage in the driver's sequence. */
  function Rank(stage: Stage): nat
  {
    match stage
    case Grayscale => 0
    case Monochrome => 1
    case ToTif => 2
    case ToTxt => 3
  }

  /** The entry point's condition for doing any work: tesseract answered
      with status 0 and the first scan found something. */
  predicate GatePasses(probe: Probe, dir: Directory, cfg: Config)
  {
    CheckTesseract(probe) == 0 && FindFiles(dir, cfg.ext) != {}
  }

  /** Every command of a phase belongs to that phase's stage. */
  lemma StagesOfEnumeration(cmds: seq<Command>, stage: Stage, cfg: Config, batch: set<string>)
    requires Enumerates(cmds, Step(stage, cfg), batch)
    ensures forall x | x in cmds :: x.stage == stage
  {
    forall x | x in cmds
      ensures x.stage == stage
    {
      assert x == Build(stage, x.input, cfg);
    }
  }

  /** Commands of the three driver stages appear in phase order. */
  lemma PhaseOrder(a: seq<Command>, b: seq<Command>, c: seq<Command>)
    requires forall x | x in a :: x.stage == Monochrome
    requires forall x | x in b :: x.stage == ToTif
    requires forall x | x in c :: x.stage == ToTxt
    ensures forall i, j | 0 <= i < j < |a + b + c| ::
              Rank((a + b + c)[i].stage) <= Rank((a + b + c)[j].stage)
  {
    var s := a + b + c;
    forall i | 0 <= i < |s|
      ensures Rank(s[i].stage) == if i < |a| then 1 else if i < |a| + |b| then 2 else 3
    {
      if i < |a| {
        assert s[i] == a[i];
      } else if i < |a| + |b| {
        assert s[i] == b[i - |a|];
      } else {
        assert s[i] == c[i - |a| - |b|];
      }
    }
  }

  /** The `__main__` block of ocr.py with its fixed settings made parameters:
      the gate, then `monochrome` over `*ext`, a re-scan for `*_m<ext>` and
      `totif` on each match, a re-scan for `*_m.tif` and `totxt` on each
      match. Returns what was issued and the final directory. */
  method RunPipeline(cfg: Config, dir: Directory, probe: Probe, succeeds: Command -> bool)
    returns (run: Run, final: Directory)
    ensures run.Aborted? <==> !GatePasses(probe, dir, cfg)
    ensures run.Aborted? ==> Issued(run) == [] && final == dir
    ensures run.Completed? ==>
              && Enumerates(run.monochrome, Step(Monochrome, cfg), FindFiles(dir, cfg.ext))
              && Enumerates(run.totif, Step(ToTif, cfg),
                            FindFiles(AfterMonochrome(dir, cfg, succeeds), "_m" + cfg.ext))
              && Enumerates(run.totxt, Step(ToTxt, cfg),
                            FindFiles(AfterToTif(dir, cfg, succeeds), "_m.tif"))
              && final == AfterToTxt(dir, cfg, succeeds)
    ensures forall i, j | 0 <= i < j < |Issued(run)| ::
              Rank(Issued(run)[i].stage) <= Rank(Issued(run)[j].stage)
    ensures final == dir + Outputs(Issued(run), succeeds)
    ensures dir <= final
  {
    var jpgs := FindFiles(dir, cfg.ext);
    if !(CheckTesseract(probe) == 0 && jpgs != {}) {
      run := Aborted;
      final := dir;
      assert Outputs([], succeeds) == {};
      return;
    }
    var a, b, c;
    a, b, c, final := RunPhases(cfg, dir, succeeds);
    run := Completed(a, b, c);
    PhaseOrder(a, b, c);
    OutputsConcat(a + b, c, succeeds);
  }

  /** The three phases of the entry point once the gate has passed. */
  method RunPhases(cfg: Config, dir: Directory, succeeds: Command -> bool)
    returns (a: seq<Command>, b: seq<Command>, c: seq<Command>, final: Directory)
    ensures Enumerates(a, Step(Monochrome, cfg), FindFiles(dir, cfg.ext))
    ensures Enumerates(b, Step(ToTif, cfg), FindFiles(AfterMonochrome(dir, cfg, succeeds), "_m" + cfg.ext))
    ensures Enumerates(c, Step(ToTxt, cfg), FindFiles(AfterToTif(dir, cfg, succeeds), "_m.tif"))
    ensures final == AfterToTxt(dir, cfg, succeeds)
    ensures forall x | x in a :: x.stage == Monochrome
    ensures forall x | x in b :: x.stage == ToTif
    ensures forall x | x in c :: x.stage == ToTxt
    ensures final == dir + Outputs(a + b, succeeds) + Outputs(c, succeeds)
    ensures dir <= AfterMonochrome(dir, cfg, succeeds) <= AfterToTif(dir, cfg, succeeds) <= final
  {
    var d1, d2;
    a, d1 := RunPhase(Step(Monochrome, cfg), FindFiles(dir, cfg.ext), dir, succeeds);
    b, d2 := RunPhase(Step(ToTif, cfg), FindFiles(d1, "_m" + cfg.ext), d1, succeeds);
    c, final := RunPhase(Step(ToTxt, cfg), FindFiles(d2, "_m.tif"), d2, succeeds);
    StagesOfEnumeration(a, Monochrome, cfg, FindFiles(dir, cfg.ext));
    StagesOfEnumeration(b, ToTif, cfg, FindFiles(d1, "_m" + cfg.ext));
    StagesOfEnumeration(c, ToTxt, cfg, FindFiles(d2, "_m.tif"));
    OutputsConcat(a, b, succeeds);
  }

  // ---- How one phase feeds the next ----

  /** A matching name whose command succeeds leaves its output behind. */
  lemma OutputAfterPhase(dir: Directory, stage: Stage, pattern: string, cfg: Config,
                         succeeds: Command -> bool, n: string)
    requires n in dir && EndsWith(n, pattern)
    requires succeeds(Build(stage, n, cfg))
    ensures Output(Build(stage, n, cfg)) in AfterPhase(dir, stage, pattern, cfg, succeeds)
  {
    assert n in FindFiles(dir, pattern);
    assert Step(stage, cfg)(n) == Build(stage, n, cfg);
  }

  /** Every name phase A creates is picked up by the re-scan for `*_m<ext>`. */
  lemma MonochromeFeedsToTif(dir: Directory, cfg: Config, succeeds: Command -> bool, n: string)
    requires n in dir && EndsWith(n, cfg.ext)
    requires succeeds(Build(Monochrome, n, cfg))
    ensures Output(Build(Monochrome, n, cfg))
            in FindFiles(AfterMonochrome(dir, cfg, succeeds), "_m" + cfg.ext)
  {
    OutputAfterPhase(dir, Monochrome, cfg.ext, cfg, succeeds, n);
  }

  /** Every name phase B creates from a `*_m<ext>` match in the directory `d1`
      it scans (the one phase A left) is picked up by the re-scan for
      `*_m.tif`, when the extension is not empty. */
  lemma ToTifFeedsToTxt(d1: Directory, cfg: Config, succeeds: Command -> bool, m: string)
    requires cfg.ext != []
    requires m in d1 && EndsWith(m, "_m" + cfg.ext)
    requires succeeds(Build(ToTif, m, cfg))
    ensures Output(Build(ToTif, m, cfg))
            in FindFiles(AfterPhase(d1, ToTif, "_m" + cfg.ext, cfg, succeeds), "_m.tif")
  {
    assert Output(Build(ToTif, m, cfg)) == ToTifCommand(m, cfg.ext).target;
    ToTifKeepsMarker(m, "_m", cfg.ext);
    assert "_m" + ".tif" == "_m.tif";
    OutputAfterPhase(d1, ToTif, "_m" + cfg.ext, cfg, succeeds, m);
  }

  /** When every external command succeeds and the extension is not empty,
      each input image `<stem><ext>` ends as the text file `<stem>_m.txt`,
      by way of `<stem>_m<ext>` and `<stem>_m.tif`. */
  lemma EveryImageReachesText(dir: Directory, cfg: Config, succeeds: Command -> bool, n: string)
    requires cfg.ext != []
    requires forall c :: succeeds(c)
    requires n in dir && EndsWith(n, cfg.ext)
    ensures Stem(n, cfg.ext) + "_m" + cfg.ext in AfterMonochrome(dir, cfg, succeeds)
    ensures Stem(n, cfg.ext) + "_m.tif" in AfterToTif(dir, cfg, succeeds)
    ensures Stem(n, cfg.ext) + "_m.txt" in AfterToTxt(dir, cfg, succeeds)
  {
    var p := Stem(n, cfg.ext);
    var a := Build(Monochrome, n, cfg).target;
    var b := Build(ToTif, a, cfg).target;
    assert p + cfg.ext == n;
    ChainNames(p, cfg);
    MonochromeFeedsToTif(dir, cfg, succeeds, n);
    ToTifFeedsToTxt(AfterMonochrome(dir, cfg, succeeds), cfg, succeeds, a);
    OutputAfterPhase(AfterToTif(dir, cfg, succeeds), ToTxt, "_m.tif", cfg, succeeds, b);
  }

  // ---- A worked directory ----

  /** A batch of two names, both commands succeeding, creates both outputs. */
  lemma PhaseOutputsOfPair(step: string -> Command, x: string, y: string, succeeds: Command -> bool)
    requires succeeds(step(x)) && succeeds(step(y))
    ensures PhaseOutputs(step, {x, y}, succeeds) == {Output(step(x)), Output(step(y))}
  {
  }

  /** The configuration of `TwoImages`: ".jpg" images, threshold 75, English. */
  const JpgConfig := Config(".jpg", 75, "eng")

  /** Phase A of `TwoImages` creates the two filtered copies. */
  lemma OutputsA(succeeds: Command -> bool)
    requires forall c :: succeeds(c)
    ensures PhaseOutputs(Step(Monochrome, JpgConfig), {"a.jpg", "b.jpg"}, succeeds)
         == {"a_m.jpg", "b_m.jpg"}
  {
    assert "a" + ".jpg" == "a.jpg" && "b" + ".jpg" == "b.jpg";
    assert "a" + "_m" + ".jpg" == "a_m.jpg" && "b" + "_m" + ".jpg" == "b_m.jpg";
    ChainNames("a", JpgConfig);
    ChainNames("b", JpgConfig);
    PhaseOutputsOfPair(Step(Monochrome, JpgConfig), "a.jpg", "b.jpg", succeeds);
  }

  /** Phase B of `TwoImages` creates the two bitmaps. */
  lemma OutputsB(succeeds: Command -> bool)
    requires forall c :: succeeds(c)
    ensures PhaseOutputs(Step(ToTif, JpgConfig), {"a_m.jpg", "b_m.jpg"}, succeeds)
         == {"a_m.tif", "b_m.tif"}
  {
    assert "a" + "_m" + ".jpg" == "a_m.jpg" && "b" + "_m" + ".jpg" == "b_m.jpg";
    assert "a" + "_m.tif" == "a_m.tif" && "b" + "_m.tif" == "b_m.tif";
    ChainNames("a", JpgConfig);
    ChainNames("b", JpgConfig);
    PhaseOutputsOfPair(Step(ToTif, JpgConfig), "a_m.jpg", "b_m.jpg", succeeds);
  }

  /** Phase C of `TwoImages` creates the two text files. */
  lemma OutputsC(succeeds: Command -> bool)
    requires forall c :: succeeds(c)
    ensures PhaseOutputs(Step(ToTxt, JpgConfig), {"a_m.tif", "b_m.tif"}, succeeds)
         == {"a_m.txt", "b_m.txt"}
  {
    assert "a" + "_m.tif" == "a_m.tif" && "b" + "_m.tif" == "b_m.tif";
    assert "a" + "_m.txt" == "a_m.txt" && "b" + "_m.txt" == "b_m.txt";
    ChainNames("a", JpgConfig);
    ChainNames("b", JpgConfig);
    PhaseOutputsOfPair(Step(ToTxt, JpgConfig), "a_m.tif", "b_m.tif", succeeds);
  }

  /** The directory of `TwoImages` after phase A. */
  lemma PhaseAOfTwo(succeeds: Command -> bool)
    requires forall c :: succeeds(c)
    ensures AfterMonochrome({"a.jpg", "b.jpg"}, JpgConfig, succeeds)
         == {"a.jpg", "b.jpg", "a_m.jpg", "b_m.jpg"}
  {
    assert FindFiles({"a.jpg", "b.jpg"}, ".jpg") == {"a.jpg", "b.jpg"} by {
      assert EndsWith("a.jpg", ".jpg") && EndsWith("b.jpg", ".jpg");
    }
    OutputsA(succeeds);
  }

  /** Phase B of `TwoImages` scans for "_m.jpg" and adds the bitmaps. */
  lemma PhaseBOfTwo(succeeds: Command -> bool)
    requires forall c :: succeeds(c)
    ensures AfterPhase({"a.jpg", "b.jpg", "a_m.jpg", "b_m.jpg"}, ToTif, "_m" + JpgConfig.ext,
                       JpgConfig, succeeds)
         == {"a.jpg", "b.jpg", "a_m.jpg", "b_m.jpg", "a_m.tif", "b_m.tif"}
  {
    assert "_m" + JpgConfig.ext == "_m.jpg";
    assert FindFiles({"a.jpg", "b.jpg", "a_m.jpg", "b_m.jpg"}, "_m.jpg") == {"a_m.jpg", "b_m.jpg"} by {
      assert EndsWith("a_m.jpg", "_m.jpg") && EndsWith("b_m.jpg", "_m.jpg");
      assert !EndsWith("a.jpg", "_m.jpg") && !EndsWith("b.jpg", "_m.jpg");
    }
    OutputsB(succeeds);
  }

  /** Phase C's scan in `TwoImages` finds only the two bitmaps. */
  lemma ScanOfTwoForTif()
    ensures FindFiles({"a.jpg", "b.jpg", "a_m.jpg", "b_m.jpg", "a_m.tif", "b_m.tif"}, "_m.tif")
         == {"a_m.tif", "b_m.tif"}
  {
    assert EndsWith("a_m.tif", "_m.tif") && EndsWith("b_m.tif", "_m.tif");
    assert !EndsWith("a.jpg", "_m.tif") && !EndsWith("b.jpg", "_m.tif");
    assert !EndsWith("a_m.jpg", "_m.tif") && !EndsWith("b_m.jpg", "_m.tif");
  }

  /** Phase C of `TwoImages` scans for "_m.tif" and adds the text files. */
  lemma PhaseCOfTwo(succeeds: Command -> bool)
    requires forall c :: succeeds(c)
    ensures AfterPhase({"a.jpg", "b.jpg", "a_m.jpg", "b_m.jpg", "a_m.tif", "b_m.tif"},
                       ToTxt, "_m.tif", JpgConfig, succeeds)
         == {"a.jpg", "b.jpg", "a_m.jpg", "b_m.jpg", "a_m.tif", "b_m.tif", "a_m.txt", "b_m.txt"}
  {
    ScanOfTwoForTif();
    OutputsC(succeeds);
  }

  /** The directory of `TwoImages` after phases A and B. */
  lemma PhasesABOfTwo(succeeds: Command -> bool)
    requires forall c :: succeeds(c)
    ensures AfterToTif({"a.jpg", "b.jpg"}, JpgConfig, succeeds)
         == {"a.jpg", "b.jpg", "a_m.jpg", "b_m.jpg", "a_m.tif", "b_m.tif"}
  {
    PhaseAOfTwo(succeeds);
    PhaseBOfTwo(succeeds);
  }

  /** Two images `a.jpg` and `b.jpg`, every command succeeding: the run leaves
      the originals and adds exactly the filtered copies, the bitmaps and the
      text files. */
  lemma TwoImages(succeeds: Command -> bool)
    requires forall c :: succeeds(c)
    ensures AfterToTxt({"a.jpg", "b.jpg"}, JpgConfig, succeeds)
         == {"a.jpg", "b.jpg", "a_m.jpg", "b_m.jpg", "a_m.tif", "b_m.tif", "a_m.txt", "b_m.txt"}
  {
    PhasesABOfTwo(succeeds);
    PhaseCOfTwo(succeeds);
  }
}
