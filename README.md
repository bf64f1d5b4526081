# Evo 2 batch embedding extraction, modelled in Dafny

`embed_evo2.py` computes one embedding per FASTA window. It finds the window
files below an input directory (`*.fa*`, or `**/*.fa*` with `--recursive`) and
sorts them. It exits if there are none, and otherwise creates the output
directory. Then it walks the sorted list. A window whose `<stem>.pt` file
already exists is skipped, so an interrupted run can be resumed. Any other
window is loaded: its first line, stripped and uppercased. The loaded line is
tokenized, sent through the model, and the activation of one layer is saved as
`<stem>.pt`.

This project models that core and proves its properties:

- `paths.dfy` (module `Paths`): pathlib's `name`, `suffix` and `stem`, and the
  output file name `f"{stem}.pt"`.
- `path_order.dfy` (module `PathOrder`): the order `sorted()` puts paths in.
  Strings compare by code point. POSIX paths compare by their component lists,
  not by their joined text.
- `catalog.dfy` (module `Catalog`): `get_fasta_paths`. This covers the fnmatch
  pattern `*.fa*`, the recursive and non-recursive glob over a directory
  listing, and `sorted`.
- `loader.dfy` (module `Loader`): `load_sequence`. This covers
  `str.splitlines` with Python's full set of line boundaries, `str.strip` with
  the characters `str.isspace` accepts, and `str.upper`.
- `extraction.dfy` (module `Extraction`): `main` from discovery on.
  - The pure functions `Step`, `Run` and `Pipeline` specify the loop and the
    whole run.
  - The class `OutputDirectory` is the output directory: whether it exists,
    and a map from file name to saved artifact.
  - Its method `ExtractAll` is the `for` loop. `EmbedDirectory` is the script
    from discovery on. Both are proved equal to the pure functions.

Inputs the script gets from its environment become parameters:

- The directory listing is a sequence of paths relative to `--indir`, in
  enumeration order.
- The readable files are a map from path to decoded text.
- The loop takes the read step as a function `load`. The script passes
  `load_sequence` over those files (`Extraction.ScriptLoader`).
- Tokenizing plus the forward pass is one opaque function
  `embed: string -> Option<A>`, where `None` means the call raised.
- A saved tensor is a value of the type parameter `A`.

Behaviour of the script a reader might not expect:

- The pattern `*.fa*` accepts every name that contains `.fa`, such as
  `x.fa.gz`, `x.fastq` or `a.fa.pt`, not only the `*.fa` / `*.fasta` files
  that the `--indir` help text names (line 39).
- Line 1 is returned whatever it holds. A FASTA header is not skipped
  (`Loader.HeaderIsReturned`).
- A file whose first line is blank yields the empty sequence, which is passed
  to the model unchecked.
- Any failure to load or embed one window aborts the whole run at that
  window. Nothing is logged or continued.
- After a clean run there is one file per distinct stem, not one per input.
  Inputs with the same stem share one file, and the first in sorted order
  decides it (`Extraction.PipelineFirstInOrderWins`).
- The layer name is not validated before the loop. A bad layer raises at the
  first window that is computed.
- An empty discovery exits before the output directory is created.
- A rerun also lists saved files whose name contains `.fa` (such as
  `a.fa.pt`) in two cases: when `--outdir` is `--indir` itself, in either
  search mode, and when `--outdir` lies below `--indir` and the search is
  recursive. Such a file is mapped to its own name (`Paths.OutputNamesItself`),
  which exists, so it is skipped like any other window whose file exists.
- A saved file's name depends on the stem, and the stem follows pathlib's rule
  up to Python 3.13: the part before the last dot, unless that dot is the first
  or the last character of the name. Newer Python versions may treat a name
  that ends in a dot differently.

## Model

| member | source | states |
|---|---|---|
| Paths.Name | embed_evo2.py:106 | pathlib `PurePath.name`: the final component of the path ("" for the empty path); no contract of its own |
| Paths.Suffix | embed_evo2.py:106 | pathlib `PurePath.suffix`: from the last dot to the end when `HasSuffix`, otherwise ""; its properties are in `StemSuffix` and `SuffixShape` |
| Paths.Stem | embed_evo2.py:106 | pathlib `PurePath.stem`: the name before the last dot when `HasSuffix`, otherwise the whole name; its properties are in `StemSuffix`, `StemDropsLastSuffix` and `StemShortensIff` |
| Paths.ArtifactName | embed_evo2.py:106 | The file name `f"{fa_path.stem}.pt"`; its properties are in `ArtifactNameIgnoresDirectory`, `ArtifactNameCollision` and `OutputNamesItself` |
| Paths.LastDot | embed_evo2.py:106 | The suffix rule needs `rfind('.')`: the result is -1 or the index of a dot with no dot after it |
| Paths.StemSuffix | embed_evo2.py:106 | `stem` followed by `suffix` gives the file name back |
| Paths.SuffixShape | embed_evo2.py:106 | A suffix is empty, or a dot followed by at least one non-dot character |
| Paths.StemDropsLastSuffix | embed_evo2.py:106 | Only the last suffix is removed: the stem of `base.ext` is `base`, even when `base` holds dots, and its suffix is `.ext` |
| Paths.StemShortensIff | embed_evo2.py:106 | The stem is shorter than the name exactly when the name does not end in a dot and has a dot after its first character |
| Paths.ArtifactNameIgnoresDirectory | embed_evo2.py:106 | The output file name depends only on the final component, never on the subdirectory, and it is `stem + ".pt"` |
| Paths.ArtifactNameCollision | embed_evo2.py:106 | Two inputs map to the same output file exactly when their stems are equal |
| Paths.ArtifactNameExample | embed_evo2.py:106 | `win_001.fa` and `chr1/win_001.fasta` are both written as `win_001.pt`; `a.fa.gz` is written as `a.fa.pt` |
| Paths.OutputNamesItself | embed_evo2.py:106 | A saved file `s.pt` that is listed again as an input (in any directory) maps to its own name `s.pt` |
| PathOrder.StrLt | embed_evo2.py:71 | Python's `<` on `str`, by code point with a proper prefix first; its contract: no string is less than itself |
| PathOrder.PathLt | embed_evo2.py:71 | Python's `<` on POSIX paths, their component lists compared lexicographically; its contract: no path is less than itself |
| PathOrder.PathLeTotalOrder | embed_evo2.py:71 | The order `sorted` uses on paths is reflexive, antisymmetric, transitive and total |
| PathOrder.ComponentOrderExample | embed_evo2.py:71 | Paths compare by components: `a/x` sorts before `a-b/x`, although the joined string `a-b/x` sorts first |
| Catalog.MatchesFaGlob | embed_evo2.py:70 | fnmatch of `*.fa*` against one name; its contract: a matching name has at least three characters |
| Catalog.Selected | embed_evo2.py:70 | Whether `glob("*.fa*")` (only direct entries) or `glob("**/*.fa*")` (any depth) returns an entry: its final component matches; no contract of its own |
| Catalog.MatchesFaGlobIff | embed_evo2.py:70 | The glob matcher accepts a name exactly when `.fa` occurs somewhere in it |
| Catalog.Glob | embed_evo2.py:70 | The glob returns exactly the listed entries that are selected: matching final component, direct children only unless recursive |
| Catalog.Insert | embed_evo2.py:71 | Inserting into a sorted list keeps it sorted and adds exactly the one element |
| Catalog.SortPaths | embed_evo2.py:71 | `sorted` returns an ascending permutation of its argument |
| Catalog.Discover | embed_evo2.py:69-71 | Discovery is sorted, is a permutation of the glob result, and holds exactly the selected entries |
| Catalog.DiscoverSelects | embed_evo2.py:69-71 | Non-recursive discovery returns exactly the direct entries whose name contains `.fa`; recursive discovery returns the entries at any depth whose final name contains `.fa` |
| Catalog.GlobCount | embed_evo2.py:70 | The glob returns a matching entry as often as it is listed, and a non-matching one never |
| Catalog.RecursiveWidens | embed_evo2.py:69-71 | Every non-recursive result is also a recursive result, multiplicities included |
| Catalog.SortedUnique | embed_evo2.py:71 | Two sorted lists with the same elements are equal |
| Catalog.DiscoverOrderIndependent | embed_evo2.py:69-71 | Discovery does not depend on the order in which the file system lists the entries |
| Loader.IsLineBoundary | embed_evo2.py:75 | The characters at which `str.splitlines` ends a line; its contract: each of them is whitespace under `str.isspace` |
| Loader.IsSpace | embed_evo2.py:75 | `str.isspace` for one character, what `str.strip()` removes; its contract: no printable ASCII character is whitespace |
| Loader.LineEnd | embed_evo2.py:75 | The index of the first line boundary, or the length of the text; its contract: it lies within the text |
| Loader.LineEndFirst | embed_evo2.py:75 | The first line ends at the first line boundary: nothing before it is a boundary |
| Loader.SplitLines | embed_evo2.py:75 | `splitlines` returns no lines exactly when the text is empty |
| Loader.SplitLinesNoBoundary | embed_evo2.py:75 | No line returned by `splitlines` contains a line boundary |
| Loader.FirstLineOf | embed_evo2.py:75 | The first line is the text before the first line boundary |
| Loader.SingleLine | embed_evo2.py:75 | A non-empty text with no line boundary is a single line |
| Loader.Strip | embed_evo2.py:75 | `str.strip()`: the text with leading and trailing whitespace removed; its contract: the result is no longer than its argument |
| Loader.StripEnds | embed_evo2.py:75 | What `strip` keeps neither starts nor ends with whitespace |
| Loader.StripCuts | embed_evo2.py:75 | What `strip` keeps is a contiguous piece of its argument, and the text cut on each side is whitespace |
| Loader.StripUnique | embed_evo2.py:75 | `strip` of whitespace, then text with non-space ends, then whitespace gives exactly that text |
| Loader.Upper | embed_evo2.py:75 | `str.upper()` mapped character by character; its contract: the length is kept |
| Loader.UpperAt | embed_evo2.py:75 | `upper` keeps the length and maps each character on its own |
| Loader.UpperNormalizes | embed_evo2.py:75 | After `upper` no lower-case letter is left, and applying it again changes nothing |
| Loader.LoadSequence | embed_evo2.py:74-75 | Loading fails as unreadable exactly when the path is not a readable file, and as an empty-file `IndexError` exactly when the text is empty |
| Loader.LoadedSequenceShape | embed_evo2.py:74-75 | A loaded sequence contains no line boundary, has no lower-case letter left and has no whitespace at either end |
| Loader.LoadSequenceFirstLine | embed_evo2.py:74-75 | A file starting with line `l` yields `Upper(Strip(l))`, whatever follows it |
| Loader.LoadSequenceWholeText | embed_evo2.py:74-75 | A non-empty file with no line boundary is read whole: it yields the whole text, stripped and uppercased |
| Loader.LoadSequenceTrimmed | embed_evo2.py:74-75 | A first line made of whitespace, text and whitespace yields exactly that text, uppercased |
| Loader.HeaderIsReturned | embed_evo2.py:74-75 | A file whose first line is a `>` header yields that header, starting with `>`: line 1 is not skipped |
| Extraction.Compute | embed_evo2.py:111-119 | Computing a window fails exactly as loading or the model fails (with that window's error, a load error passed on unchanged); otherwise it is the model's output on the loaded sequence |
| Extraction.Step | embed_evo2.py:106-120 | An existing file is skipped and neither recomputed nor overwritten. Otherwise the step fails with exactly the computation's error, or saves exactly the computed value under `stem.pt` and changes no other file |
| Extraction.Run | embed_evo2.py:105-120 | The trace is complete exactly when no window failed, the failure is never "no FASTA found", and existing files are kept unchanged |
| Extraction.RunTraceNames | embed_evo2.py:106-109 | Report i of the loop is about the output file of window i |
| Extraction.RunOnlyWindowNames | embed_evo2.py:105-120 | A run adds files only under the names of its windows, even when an exception stops it |
| Extraction.RunComplete | embed_evo2.py:105-120 | After a run with no exception, the directory holds its old files plus one file per window name, and nothing else |
| Extraction.RunSavedNames | embed_evo2.py:105-120 | The files reported as saved are exactly the files the run added |
| Extraction.RunAllPresent | embed_evo2.py:107-109 | When every window's file exists, every window is skipped and nothing is written |
| Extraction.RunIdempotent | embed_evo2.py:105-120 | A rerun after a clean run skips every window and writes nothing, whatever the files and the model now give |
| Extraction.RunSucceeds | embed_evo2.py:105-120 | When every window can be loaded and embedded, the run ends without an exception |
| Extraction.RunSavedAt | embed_evo2.py:106-120 | A window whose file the run saves had no file before the run and is the first window with that name, so later windows with the name are skipped |
| Extraction.RunSavesFirstOnly | embed_evo2.py:106-120 | Every save report belongs to a window whose file was missing and which is the first with its name |
| Extraction.RunSavesOnce | embed_evo2.py:106-120 | No two save reports of one run name the same file: each file is computed at most once |
| Extraction.RunSavedCount | embed_evo2.py:105-120 | The number of windows a run computes equals the number of files it adds |
| Extraction.RunFirstWins | embed_evo2.py:106-119 | On a stem collision the file holds the embedding of the first window in list order with that name |
| Extraction.RunFailureLocated | embed_evo2.py:105-120 | An exception at window k aborts the run: the directory is what the first k windows made it, and window k raised exactly that exception |
| Extraction.RunResume | embed_evo2.py:105-120 | Resuming from any directory between a run's start and its result ends with the same directory |
| Extraction.RerunAfterDeletion | embed_evo2.py:105-120 | Deleting files after a clean run and running again recomputes exactly the deleted files and restores the directory |
| Extraction.RerunCountsDeleted | embed_evo2.py:105-120 | After a clean run, a rerun computes exactly as many windows as existing files were deleted (one deleted file, one computation) |
| Extraction.RerunAfterDeletionWithOtherModel | embed_evo2.py:105-120 | Rerunning after deleting files, with other files and another model, ends with the same file names. Kept files stay unchanged, and exactly the deleted files are reported saved |
| Extraction.RerunRecomputesDeleted | embed_evo2.py:106-119 | In such a rerun, each deleted file holds the new model's result for the first window that names it |
| Extraction.Pipeline | embed_evo2.py:99-120 | "No FASTA found" happens exactly when discovery is empty. The run then exits with the output directory untouched (not created); otherwise the directory exists afterwards and keeps its old files |
| Extraction.PipelineComplete | embed_evo2.py:99-120 | After a clean run every selected input has its output file, and no other file was added |
| Extraction.PipelineRerun | embed_evo2.py:99-120 | Running the script again on the same input skips every window and changes nothing |
| Extraction.PipelineOrderIndependent | embed_evo2.py:99-120 | The whole run does not depend on the order in which the file system lists the directory |
| Extraction.PipelineFirstInOrderWins | embed_evo2.py:99-120 | On a stem collision the input that sorts first determines the file's content |
| Extraction.ScriptLoader | embed_evo2.py:111 | The loop reads a window by calling `load_sequence` on the files. Unreadable exactly when the path is not a readable file, and the empty-file error exactly when the text is empty |
| Extraction.OutputDirectory.MakeDirs | embed_evo2.py:102 | `mkdir(exist_ok=True, parents=True)` creates the directory and keeps every file in it |
| Extraction.OutputDirectory.Save | embed_evo2.py:119 | `torch.save` writes one file and changes no other |
| Extraction.OutputDirectory.ExtractAll | embed_evo2.py:105-120 | The loop leaves the directory, the trace and the exception exactly as `Run` computes them from the old directory |
| Extraction.EmbedDirectory | embed_evo2.py:99-120 | The script from discovery on leaves the directory, trace and exception exactly as `Pipeline` computes them |

## Left out

- Argument parsing (lines 31-67) and setting `HF_HOME` (lines 82-83): configuration only.
- Device selection, model loading and `eval()` (lines 85-94): external collaborators.
- The tokenizer and the forward pass.
  - The model is one opaque function, so its determinism is assumed: equal
    sequences give equal artifacts. `Extraction.RunResume` and
    `Extraction.RerunAfterDeletion` rely on this.
    `Extraction.RerunAfterDeletionWithOtherModel` and
    `Extraction.RerunRecomputesDeleted` state what a rerun gives under
    another model.
  - The model's layer lookup and the tensor's shape are not modelled.
  - The `squeeze(0).cpu()` applied before saving is not modelled either.
  - An unknown layer appears only as the model raising.
- Timing, `print` and the progress bar (lines 86, 89, 96, 105, 122-125): output only. The trace records skipped and saved windows in place of the `tqdm.write` messages.
- `sys.exit` is modelled as the `NoFastaFound` result. Process exit codes and the printed directory are not modelled.
- File-system details of `glob`:
  - Symbolic links and case-insensitive file systems are not modelled.
  - The listing is taken as given. Names starting with a dot are matched
    like any other name, as pathlib does.
  - A directory whose name matches is returned like a file, and reading it
    fails as unreadable.
- Text decoding in `read_text`: a file is given as its decoded text, and a decoding error counts as unreadable. File names are sequences of Unicode scalar values, so a POSIX file name with undecodable bytes, which Python turns into lone surrogates such as U+DC80, is not modelled.
- Loader.Upper: maps only the ASCII letters `a`-`z`. Python's `str.upper` also maps other lower-case letters and can lengthen a string (`ß` becomes `SS`).
- Writing errors and partially written files (a crash during `torch.save`): a save is modelled as atomic and always successful.
- Extraction.OutputDirectory.MakeDirs: always succeeds. `mkdir(exist_ok=True, parents=True)` at line 102 raises when `--outdir` exists but is not a directory, or cannot be created. No failure case models that, so `Extraction.Pipeline` never fails between discovery and the loop.
- Concurrency: two runs sharing an output directory are not modelled.
