# ocr.py: file names, command lines and the three-phase driver

ocr.py turns a directory of scanned images into text files. It does this by
handing every real step to ImageMagick `convert` and to `tesseract` through
`os.system`. What the script itself decides is:

- which names it picks up (`findfiles`, a suffix glob in one directory);
- which output name each stage derives from its input (the stem rule shared
  by `grayscale`, `monochrome`, `totif` and `totxt`);
- the exact command line each stage builds;
- when the entry point runs at all (the `check_tesseract` gate);
- how its three phases feed each other through the directory.

This project models exactly that layer.

- `strings.dfy` (module `Strings`): Python's `str.endswith`, the slice
  `s[:-k]` including its `k == 0` behaviour, and `str(int)`.
- `shell.dfy` (module `Shell`): how the shell splits a command line into
  words at blanks. It checks command construction: a built line reaches the
  tool as the intended argument vector.
- `stages.dfy` (module `Stages`): the stem rule, the four stage invokers as
  `Command` records (line, input, target), and how names chain from stage to
  stage.
- `pipeline.dfy` (module `Pipeline`): `check_tesseract`'s status, `findfiles`
  over a directory modelled as a `set<string>` of names, one phase as a loop
  over its batch, and the entry point.

Whether an external tool creates its output is the parameter
`succeeds: Command -> bool`. A phase visits its batch in an unspecified order,
since glob order is not modelled. Every result about a phase is therefore
stated independently of that order: `Enumerates` says the phase ran its stage
once on every name of the batch, and `PhaseOutputs` is the order-free
reference meaning of the phase.

Python's `s[:-0]` is the empty string, so an empty extension gives an empty
stem. The model keeps this as written. One consequence is
`Stages.Marked`'s if-and-only-if: a target equals its input exactly when the
extension is empty and the input is the bare marker (`monochrome("_m", t, "")`
overwrites its own input).

Three further behaviours of the code are kept as they are:

- A name that is only the extension, such as `.png`, has an empty stem.
- A name without the extension is not skipped. The command is still built,
  with an empty stem, so its target is the bare suffix (`_m.png`, `.tif`).
  With case-sensitive matching, as on POSIX systems, the driver never passes
  such a name, because every name it passes came from a scan for that very
  suffix. Where glob matches without regard to case, as on Windows, `A.PNG`
  is found by `*.png` but does not end with `.png`, so its target is `_m.png`.
  Several such images then all write `_m.png`.
- Each glob result is processed in whatever order it comes, and the
  directory is re-scanned between phases. The model re-scans and leaves the
  order unspecified.

## Model

| member | source | states |
|---|---|---|
| `Strings.DropLast` | ocr.py:110 | `s[:-k]` is a prefix of `s`, shorter by exactly `k` when `0 < k <= len(s)`, and empty when `k == 0` or `k > len(s)` |
| `Strings.IntToString` | ocr.py:131 | `str(thresh)` is one non-empty blank-free word; it is all digits exactly when the value is non-negative, and starts with `-` exactly when it is negative |
| `Strings.NatToStringRoundTrip` | ocr.py:131 | reading back the decimal digits written for a natural number gives that number |
| `Strings.IntToStringValue` | ocr.py:131 | the digits of `str(i)`, after the sign for a negative, read back as the magnitude of `i` |
| `Stages.Stem` | ocr.py:107-110 | the stem is a prefix of the name; with a matching non-empty extension, stem followed by the extension is the name; otherwise the stem is empty |
| `Stages.StemOfSuffixed` | ocr.py:108-110 | for any `p` and non-empty `ext`, the stem of `p + ext` is `p` (the inverse of appending) |
| `Stages.Marked` | ocr.py:126-132 | the derived name ends with marker + extension; when the name ends with a non-empty extension, it is `len(marker)` longer than the name and has the same stem; when the name does not end with the extension, or the extension is empty, it is marker + extension; it equals the input iff the extension is empty and the input is the marker |
| `Stages.GrayscaleCommand` | ocr.py:99-113 | `grayscale` reads the given name and writes the stem with `_y` and the extension |
| `Stages.MonochromeCommand` | ocr.py:116-133 | `monochrome` reads the given name and writes the stem with `_m` and the extension |
| `Stages.ToTifCommand` | ocr.py:136-149 | `totif`'s target ends with `.tif` and has the input's stem; when the name ends with a non-empty extension, the target is `len(ext)` shorter than the name plus 4; otherwise (no match, or an empty extension) it is exactly `.tif` |
| `Stages.ToTxtCommand` | ocr.py:152-166 | `totxt`'s base plus `.tif` is the name when the name ends with `.tif`, and the base is empty otherwise; the text file tesseract writes ends with `.txt` and has the base as its stem |
| `Stages.GrayscaleArgv` | ocr.py:112-113 | for a non-empty blank-free name and a blank-free extension, the shell receives exactly `convert -type Grayscale <name> <target>` |
| `Stages.MonochromeArgv` | ocr.py:131-133 | for a non-empty blank-free name and a blank-free extension, the shell receives exactly `convert -threshold <thresh>% <name> <target>` |
| `Stages.ToTifArgv` | ocr.py:148-149 | for a non-empty blank-free name, the shell receives exactly `convert <name> <target>` |
| `Stages.ToTxtArgv` | ocr.py:165-166 | for a blank-free name with something before `.tif` and a non-empty blank-free language, the shell receives exactly `tesseract <name> <base> -l <lang>` |
| `Stages.ToTxtEmptyBase` | ocr.py:160-166 | for the name `.tif` the base is empty and vanishes from the argument vector, so tesseract gets `.tif -l <lang>` |
| `Stages.UnmatchedNameTargets` | ocr.py:126-149 | a name without the extension is still processed: `monochrome` then targets `_m<ext>` and `totif` targets `.tif`; the name `.png` with extension `.png` has an empty stem |
| `Stages.ToTifKeepsMarker` | ocr.py:144-148 | `totif` on a name ending with marker + a non-empty extension targets a name ending with marker + `.tif` |
| `Stages.ChainNames` | ocr.py:178-189 | for a non-empty extension, from `<p><ext>` the stages derive `<p>_m<ext>`, then `<p>_m.tif`, then base `<p>_m`, and tesseract writes `<p>_m.txt` |
| `Stages.DefaultChain` | ocr.py:172-189 | with the entry point's settings, `a.png` leads to `a_m.png`, then `a_m.tif`, then base `a_m` |
| `Shell.TokensOfJoin` | ocr.py:112-113 | splitting blank-free words joined by single blanks gives back the words, except that empty words vanish |
| `Shell.TokensOfCleanJoin` | ocr.py:112-113 | a line built from non-empty blank-free words hands the shell exactly those words |
| `Pipeline.CheckTesseract` | ocr.py:72-82 | the status is 0 iff the probe ran and exited with 0; an exception gives -1 |
| `Pipeline.FindFiles` | ocr.py:85-96 | the result is exactly the listed names that end with the pattern, and nothing outside the listing |
| `Pipeline.OutputsOfEnumeration` | ocr.py:178-179 | whatever order a phase visits its batch in, it creates the same names as the phase's order-free meaning |
| `Pipeline.RunPhase` | ocr.py:178-179 | the loop runs the stage once on each name of the batch and on nothing else; the directory afterwards is the old one plus the outputs of the commands that succeeded |
| `Pipeline.StagesOfEnumeration` | ocr.py:178-189 | every command a phase issues belongs to that phase's stage |
| `Pipeline.PhaseOrder` | ocr.py:177-189 | all `monochrome` commands come before all `totif` commands, which come before all `totxt` commands |
| `Pipeline.RunPhases` | ocr.py:177-189 | phase B runs over exactly the `*_m<ext>` names after phase A; phase C runs over exactly the `*_m.tif` names after phase B; the directory only grows from phase to phase |
| `Pipeline.RunPipeline` | ocr.py:171-191 | the run aborts iff the gate fails, and then issues nothing and changes nothing; otherwise it runs the three phases on the successive re-scans, in stage order; the final directory is the initial one plus the outputs of the successful commands, so nothing is ever removed |
| `Pipeline.OutputAfterPhase` | ocr.py:178-189 | a matching name whose command succeeds leaves its output in the directory after the phase |
| `Pipeline.MonochromeFeedsToTif` | ocr.py:178-184 | every name created by phase A is matched by phase B's re-scan for `*_m<ext>` |
| `Pipeline.ToTifFeedsToTxt` | ocr.py:182-188 | for a non-empty extension, every name phase B creates from a `*_m<ext>` match is matched by phase C's re-scan for `*_m.tif`, in whatever directory phase B scanned |
| `Pipeline.EveryImageReachesText` | ocr.py:171-189 | for a non-empty extension and every tool succeeding, each input image `<p><ext>` leads to `<p>_m<ext>`, `<p>_m.tif` and finally `<p>_m.txt` |
| `Pipeline.TwoImages` | ocr.py:171-189 | with `a.jpg` and `b.jpg` and every tool succeeding, the final directory is exactly the two images plus their `_m.jpg`, `_m.tif` and `_m.txt` files |

## Left out

- Process execution (`os.system`, `subprocess.run`/`call`) and what ImageMagick and tesseract do. Whether a command creates its output is the parameter `succeeds`. Three tool behaviours are assumed:
  - a successful `convert` creates exactly the name it was given, although ImageMagick writes numbered files such as `out-0.png` for a multi-frame input;
  - tesseract writes `<base>.txt`;
  - no tool creates or removes any other name.
- The Python-version branch of `check_tesseract`. Both arms yield the probe's exit status, so the probe is a `Probe` value: an exit status, or an exception.
- Real glob semantics: hidden files, wildcard characters inside the pattern, directories matching the pattern, case-insensitive matching on Windows, result order, and the `./` prefix that `os.path.join` adds. Discovery is a suffix filter over a set of names, and the phase order is left unspecified.
- Shell quoting, metacharacters, and white space other than the blank. The Argv lemmas assume blank-free names; a name with a blank would break the command line.
- What tesseract does with the name `.tif`. Its base is empty and drops out of the argument vector (`Stages.ToTxtEmptyBase`), so tesseract gets no output base. How tesseract then parses `-l` depends on its version. `Output` still names `<base>.txt`, which here is `.txt`. The driver never passes this name, because `.tif` does not end with `_m.tif`.
- The printed message when the gate fails.
- The hard-coded settings. The entry point uses `.png` and threshold 75, while the functions default to `.jpg` and 90. They are the `Config` parameter; `Stages.Default` records the entry point's values.
- `grayscale` is modelled as a command but never issued, because the entry point does not call it.
- Concurrency with other processes writing the same directory.
