/** The filename deriver and the four stage invokers of ocr.py
    (`grayscale`, `monochrome`, `totif`, `totxt`). Each invoker is modelled
    by the command it hands to `os.system`: the exact command line, the input
    it names and the output it names. Running the command is not modelled. */
module Stages {
  import opened Strings
  import opened Shell

  /** The stem shared by all four invokers: when `name` ends with `ext` it is
      `name[:-len(ext)]`, otherwise the empty string. The Python slice makes the
      stem empty for an empty `ext` too. */
  function Stem(name: string, ext: string): (r: string)
    ensures r <= name
    ensures EndsWith(name, ext) && ext != [] ==> r + ext == name
    ensures !EndsWith(name, ext) || ext == [] ==> r == []
  {
    if EndsWith(name, ext) then DropLast(name, |ext|) else []
  }

  /** Whatever stands before a non-empty extension is recovered as the stem. */
  lemma StemOfSuffixed(p: string, ext: string)
    requires ext != []
    ensures Stem(p + ext, ext) == p
  {
    assert (p + ext)[|p + ext| - |ext|..] == ext;
  }

  /** The four external steps. */
  datatype Stage = Grayscale | Monochrome | ToTif | ToTxt

  /** One call to `os.system`: the command line, and the names it reads and
      writes. For `ToTxt` the target is tesseract's output base. */
  datatype Command = Command(stage: Stage, line: string, input: string, target: string)

  /** The file the external tool creates when it succeeds: the target itself,
      except that tesseract writes `<base>.txt`. */
  function Output(c: Command): string
  {
    if c.stage == ToTxt then c.target + ".txt" else c.target
  }

  /** `stem + marker + ext`, the naming rule of `grayscale` ("_y") and
      `monochrome` ("_m"). */
  function Marked(name: string, marker: string, ext: string): (r: string)
    requires marker != []
    ensures EndsWith(r, marker + ext)
    ensures EndsWith(name, ext) && ext != [] ==>
              |r| == |name| + |marker| && Stem(r, marker + ext) == Stem(name, ext)
    ensures !EndsWith(name, ext) || ext == [] ==> r == marker + ext
    ensures r == name <==> ext == [] && name == marker
  {
    var stem := Stem(name, ext);
    assert stem + marker + ext == stem + (marker + ext);
    StemOfSuffixed(stem, marker + ext);
    stem + marker + ext
  }

  /** `grayscale(name, ext)`: `convert -type Grayscale name stem_y.ext`, the
      words joined by single blanks exactly as the source concatenates them. */
  function GrayscaleCommand(name: string, ext: string): (c: Command)
    ensures c.stage == Grayscale && c.input == name && Output(c) == c.target
    ensures c.target == Marked(name, "_y", ext)
  {
    var target := Stem(name, ext) + "_y" + ext;
    Command(Grayscale, Join(["convert", "-type", "Grayscale", name, target]), name, target)
  }

  /** `monochrome(name, thresh, ext)`:
      `convert -threshold <thresh>% name stem_m.ext`. */
  function MonochromeCommand(name: string, thresh: int, ext: string): (c: Command)
    ensures c.stage == Monochrome && c.input == name && Output(c) == c.target
    ensures c.target == Marked(name, "_m", ext)
  {
    var target := Stem(name, ext) + "_m" + ext;
    Command(Monochrome, Join(["convert", "-threshold", IntToString(thresh) + "%", name, target]),
            name, target)
  }

  /** `totif(name, ext)`: `convert name stem.tif`. */
  function ToTifCommand(name: string, ext: string): (c: Command)
    ensures c.stage == ToTif && c.input == name && Output(c) == c.target
    ensures EndsWith(c.target, ".tif") && Stem(c.target, ".tif") == Stem(name, ext)
    ensures EndsWith(name, ext) && ext != [] ==> |c.target| == |name| - |ext| + 4
    ensures !EndsWith(name, ext) || ext == [] ==> c.target == ".tif"
  {
    var target := Stem(name, ext) + ".tif";
    StemOfSuffixed(Stem(name, ext), ".tif");
    Command(ToTif, Join(["convert", name, target]), name, target)
  }

  /** `totxt(name, lang)`: `tesseract name base -l lang`, where the base is the
      name without ".tif"; tesseract then writes `base.txt`. */
  function ToTxtCommand(name: string, lang: string): (c: Command)
    ensures c.stage == ToTxt && c.input == name
    ensures EndsWith(name, ".tif") ==> c.target + ".tif" == name
    ensures !EndsWith(name, ".tif") ==> c.target == []
    ensures EndsWith(Output(c), ".txt") && Stem(Output(c), ".txt") == c.target
  {
    var base := Stem(name, ".tif");
    StemOfSuffixed(base, ".txt");
    Command(ToTxt, Join(["tesseract", name, base, "-l", lang]), name, base)
  }

  /** The fixed parameters the driver passes to the stages. */
  datatype Config = Config(ext: string, thresh: int, lang: string)

  /** The settings of ocr.py's entry point: ".png", threshold 75, and totxt's
      default language "eng". */
  const Default := Config(".png", 75, "eng")

  /** The command the driver issues for `name` in a given stage. */
  function Build(stage: Stage, name: string, cfg: Config): (c: Command)
    ensures c.stage == stage && c.input == name
  {
    match stage
    case Grayscale => GrayscaleCommand(name, cfg.ext)
    case Monochrome => MonochromeCommand(name, cfg.thresh, cfg.ext)
    case ToTif => ToTifCommand(name, cfg.ext)
    case ToTxt => ToTxtCommand(name, cfg.lang)
  }

  // ---- How the names chain from stage to stage ----

  /** `totif` on a name ending with `marker + ext` targets a name ending with
      `marker + ".tif"`. */
  lemma ToTifKeepsMarker(m: string, marker: string, ext: string)
    requires ext != [] && EndsWith(m, marker + ext)
    ensures EndsWith(ToTifCommand(m, ext).target, marker + ".tif")
  {
    EndsWithSplit(m, marker, ext);
    EndsWithAppend(Stem(m, ext), marker, ".tif");
  }

  /** The names the three driver stages derive from an image `<p><ext>`:
      `<p>_m<ext>`, then `<p>_m.tif`, then the base `<p>_m`, whose text
      file is `<p>_m.txt`. */
  lemma ChainNames(p: string, cfg: Config)
    requires cfg.ext != []
    ensures Build(Monochrome, p + cfg.ext, cfg).target == p + "_m" + cfg.ext
    ensures Build(ToTif, p + "_m" + cfg.ext, cfg).target == p + "_m.tif"
    ensures Build(ToTxt, p + "_m.tif", cfg).target == p + "_m"
    ensures Output(Build(ToTxt, p + "_m.tif", cfg)) == p + "_m.txt"
  {
    var ext := cfg.ext;
    StemOfSuffixed(p, ext);
    assert p + "_m" + ext == (p + "_m") + ext;
    StemOfSuffixed(p + "_m", ext);
    assert p + "_m" + ".tif" == p + "_m.tif";
    assert p + "_m.tif" == (p + "_m") + ".tif";
    StemOfSuffixed(p + "_m", ".tif");
    assert p + "_m" + ".txt" == p + "_m.txt";
  }

  /** With the entry point's settings, `a.png` becomes `a_m.png`, then
      `a_m.tif`, then the tesseract base `a_m`. */
  lemma DefaultChain()
    ensures Build(Monochrome, "a.png", Default).target == "a_m.png"
    ensures Build(ToTif, "a_m.png", Default).target == "a_m.tif"
    ensures Build(ToTxt, "a_m.tif", Default).target == "a_m"
  {
    assert "a" + ".png" == "a.png";
    StemOfSuffixed("a", ".png");
    assert "a_m" + ".png" == "a_m.png";
    StemOfSuffixed("a_m", ".png");
    assert "a_m" + ".tif" == "a_m.tif";
    StemOfSuffixed("a_m", ".tif");
    assert "a" + "_m" == "a_m";
  }

  /** A name without the extension is not skipped: its stem is empty and the
      commands still target the bare suffix. A name that is only the
      extension has an empty stem as well. */
  lemma UnmatchedNameTargets()
    ensures MonochromeCommand("scan.gif", 75, ".png").target == "_m.png"
    ensures ToTifCommand("scan.gif", ".png").target == ".tif"
    ensures Stem(".png", ".png") == []
  {
    assert "scan.gif"[4..] != ".png" by {
      assert "scan.gif"[4..][1] == 'g';
    }
    assert [] + "_m" + ".png" == "_m.png";
  }

  // ---- What the shell makes of each command line ----

  /** A name derived from a blank-free name by appending blank-free text is
      blank-free. */
  lemma DerivedNoSpace(name: string, ext: string, suffix: string)
    requires NoSpace(name) && NoSpace(suffix)
    ensures NoSpace(Stem(name, ext) + suffix)
  {
    NoSpacePrefix(Stem(name, ext), name);
    NoSpaceConcat(Stem(name, ext), suffix);
  }

  /** A marked name built from a blank-free name and extension is blank-free. */
  lemma MarkedNoSpace(name: string, marker: string, ext: string)
    requires marker != [] && NoSpace(name) && NoSpace(marker) && NoSpace(ext)
    ensures NoSpace(Marked(name, marker, ext)) && Marked(name, marker, ext) != []
  {
    NoSpaceConcat(marker, ext);
    DerivedNoSpace(name, ext, marker + ext);
    assert Marked(name, marker, ext) == Stem(name, ext) + (marker + ext);
  }

  /** With a blank-free name and extension, the shell runs `convert` on the
      arguments `-type Grayscale name target`: input first, output last. */
  lemma GrayscaleArgv(name: string, ext: string)
    requires name != [] && NoSpace(name) && NoSpace(ext)
    ensures Tokens(GrayscaleCommand(name, ext).line)
         == ["convert", "-type", "Grayscale", name, GrayscaleCommand(name, ext).target]
  {
    var c := GrayscaleCommand(name, ext);
    MarkedNoSpace(name, "_y", ext);
    GrayscaleWords(name, c.target);
    TokensOfCleanJoin(["convert", "-type", "Grayscale", name, c.target]);
  }

  lemma GrayscaleWords(name: string, target: string)
    requires name != [] && NoSpace(name) && target != [] && NoSpace(target)
    ensures CleanWords(["convert", "-type", "Grayscale", name, target])
  {
  }

  /** With a blank-free name and extension, the shell runs `convert` on
      `-threshold <thresh>% name target`. */
  lemma MonochromeArgv(name: string, thresh: int, ext: string)
    requires name != [] && NoSpace(name) && NoSpace(ext)
    ensures Tokens(MonochromeCommand(name, thresh, ext).line)
         == ["convert", "-threshold", IntToString(thresh) + "%", name,
             MonochromeCommand(name, thresh, ext).target]
  {
    var c := MonochromeCommand(name, thresh, ext);
    MarkedNoSpace(name, "_m", ext);
    MonochromeWords(IntToString(thresh), name, c.target);
    TokensOfCleanJoin(["convert", "-threshold", IntToString(thresh) + "%", name, c.target]);
  }

  lemma MonochromeWords(t: string, name: string, target: string)
    requires NoSpace(t) && name != [] && NoSpace(name) && target != [] && NoSpace(target)
    ensures CleanWords(["convert", "-threshold", t + "%", name, target])
  {
    NoSpaceConcat(t, "%");
  }

  /** With a blank-free name, the shell runs `convert name target`. */
  lemma ToTifArgv(name: string, ext: string)
    requires name != [] && NoSpace(name)
    ensures Tokens(ToTifCommand(name, ext).line) == ["convert", name, ToTifCommand(name, ext).target]
  {
    var c := ToTifCommand(name, ext);
    DerivedNoSpace(name, ext, ".tif");
    TokensOfCleanJoin(["convert", name, c.target]);
  }

  /** With a blank-free name that has something before ".tif", and a
      blank-free language, the shell runs `tesseract name base -l lang`. */
  lemma ToTxtArgv(name: string, lang: string)
    requires NoSpace(name) && EndsWith(name, ".tif") && |name| > 4
    requires lang != [] && NoSpace(lang)
    ensures Tokens(ToTxtCommand(name, lang).line)
         == ["tesseract", name, ToTxtCommand(name, lang).target, "-l", lang]
  {
    var c := ToTxtCommand(name, lang);
    NoSpacePrefix(c.target, name);
    TokensOfCleanJoin(["tesseract", name, c.target, "-l", lang]);
  }

  /** The file named exactly ".tif" has an empty base, so the shell drops the
      output argument: the argument vector has four words, not five. */
  lemma ToTxtEmptyBase(lang: string)
    requires lang != [] && NoSpace(lang)
    ensures Tokens(ToTxtCommand(".tif", lang).line) == ["tesseract", ".tif", "-l", lang]
  {
    var c := ToTxtCommand(".tif", lang);
    assert EndsWith(".tif", ".tif");
    assert c.target == [];
    var words := ["tesseract", ".tif", c.target, "-l", lang];
    TokensOfJoin(words);
    assert DropEmpty(words[4..]) == [lang];
    assert DropEmpty(words[2..]) == ["-l", lang];
  }
}
