# File organizer: a Dafny model of the sorting pipeline

File-organizer is a small desktop tool. The user picks a folder, and the
tool sorts every file found below it into category folders named after
the kind of file: DOKUMENTY, OBRAZY, AUDIO, WIDEO, ARCHIWA, EXE,
PROGRAMOWANIE, and INNE for everything else. This project models the
non-GUI core of `FileOrganizer.organize_files` and `get_all_files` over an
abstract filesystem, and proves what the pipeline guarantees.

The model is in four modules, one file each:

- `paths.dfy` (`Paths`): a path is a sequence of name segments. It
  defines prefixes, "strictly below", parent and base name.
- `filenames.dfy` (`Filenames`): string work on one file name.
  - `SplitExt` follows `os.path.splitext`. The extension starts at the
    last dot, unless every character before that dot is also a dot.
  - `Lower` is lower-casing. `Extension` combines the two.
  - `DecimalString` renders a counter in decimal.
  - `NumberedName` builds the names tried when a destination is taken:
    the name itself, then `base_1.ext`, `base_2.ext`, and so on.
- `categories.dfy` (`Categories`): the extension table, kept in the
  source's order, and the for/break first-match classification with INNE
  as the default.
- `organizer.dfy` (`Organizer`): the class `FileTree` holds the set of
  file paths and the set of folder paths. Its methods update them in
  place, as `os.makedirs`, `shutil.move` and `os.rmdir` do.
  - `Provision` creates the missing category folders.
  - `GetAllFiles` walks the tree and collects the files.
  - `FreeTarget` searches for a free destination name.
  - `MoveAll` runs the move loop.
  - `Cleanup` runs the bottom-up removal of empty folders.
  - `OrganizeFiles` chains these four phases (provision, collect, move,
    clean up), the way the source does.

Each loop is a Dafny loop with invariants. The walks' freedom of order
(os.walk gives no order) is modelled by choosing any folder or file still
pending; the proofs hold for every order. Cleanup takes any pending folder
that has no pending folder below it, which is what a bottom-up walk
guarantees. Its result is proved equal to a closed form, `Pruned`: a
folder strictly below the chosen one is removed exactly when its whole
subtree holds no file and no folder named like a category (`Prunable`).

The model shows one consequence of the source's checks, as the source
behaves. Suppose a FILE directly in the chosen folder has a category's
name, for example a file called `OBRAZY`. Then `os.path.exists` is true
for that category's path, so provisioning skips it. Every later move into
that category fails, and the run ends through the exception handler.
`OrganizeFiles` therefore does not promise that the category folders
exist. It states exactly when a run fails: provisioning stops at the first
category path that is absent with a file on its way (`FirstBlocked`), and
otherwise the move loop stops at the first collected file whose category
path is a file. For both failures it states the folders left behind.

## Model

| member | source | states |
|---|---|---|
| Filenames.LastDot | file_organizer.py:156 | the position found is a dot (or -1 when there is none), and no dot follows it |
| Filenames.SplitExt | file_organizer.py:156 | base + extension is the name; a non-empty extension starts with the only dot it contains and the base is not all dots; the extension is empty exactly when every dot of the name has only dots before it (".bashrc", "..") |
| Filenames.Lower | file_organizer.py:157 | same length, each character lower-cased on its own |
| Filenames.ExtensionShape | file_organizer.py:155-157 | the extension is the lower-cased tail of the base name, is its own lower case, is empty or a dot followed by no other dot, and is empty exactly when every dot of the name has only dots before it |
| Filenames.LowerIdempotent | file_organizer.py:157 | lower-casing a lower-cased string changes nothing |
| Filenames.ExtensionIgnoresCase | file_organizer.py:155-157 | two names equal up to letter case have the same extension, so they are classified alike |
| Filenames.DecimalString | file_organizer.py:172 | the counter renders as a non-empty string of decimal digits with no leading zero (only the counter 0 renders as "0") |
| Filenames.ParseDecimalString | file_organizer.py:172 | reading the digits back gives the counter: the rendering has an inverse |
| Filenames.DecimalStringInjective | file_organizer.py:172 | distinct counters render differently |
| Filenames.NumberedName | file_organizer.py:165-172 | the candidate equals the file's own name exactly when the counter is 0: no numbered variant base_n + ext coincides with the original name |
| Filenames.NumberedNameInjective | file_organizer.py:169-173 | distinct counters give distinct candidate names (the name itself for 0, base_n + ext after), so no candidate is tried twice |
| Filenames.NumberedNameKeepsExtension | file_organizer.py:169-173 | a renamed file keeps the extension of the original ("a.tar.gz" becomes "a.tar_1.gz"), so it is classified the same way |
| Filenames.NumberedNameKeepsSplit | file_organizer.py:169-173 | splitext finds in base_n + ext exactly the original extension, letter for letter, also when the original has none |
| Categories.Classify | file_organizer.py:159-163 | the for/break loop over the table returns the category of the first row whose list holds the extension, INNE when none does |
| Categories.MatchFromIsFirstMatch | file_organizer.py:159-163 | the match is a row whose list holds the extension with no earlier row holding it, or the fallback when no row holds it |
| Categories.TableShape | file_organizer.py:54-63 | one list per category, the category names are distinct, INNE is last with an empty list |
| Categories.TableDisjoint | file_organizer.py:54-63 | no extension is listed under two categories |
| Categories.TableExtensionsAreLower | file_organizer.py:54-63 | every listed extension is non-empty, starts with a dot and is its own lower case, so a lower-cased extension can match it |
| Categories.ClassifiedUnderItsList | file_organizer.py:159-163 | an extension listed under a category is classified into that category |
| Categories.FallbackOnlyByDefault | file_organizer.py:159-163 | a file lands in INNE exactly when no list holds its extension |
| Categories.NoExtensionFallsBack | file_organizer.py:156-163 | a file without an extension lands in INNE |
| Categories.CategoryOfIsCategory | file_organizer.py:159-165 | every file is classified into one of the table's categories |
| Categories.ArchiveExample | file_organizer.py:155-163 | "a.tar.gz" splits as ("a.tar", ".gz") and lands in ARCHIWA |
| Categories.DotfileExample | file_organizer.py:155-163 | ".bashrc" has no extension and lands in INNE |
| Categories.UpperCaseExample | file_organizer.py:155-163 | "Photo.JPG" has extension ".jpg" and lands in OBRAZY |
| Organizer.FileTree.MakeDirs | file_organizer.py:147 | succeeds exactly when no ancestor of the path, the path included, is a file; it then adds the path and all its ancestors as folders, and otherwise changes nothing; files never change |
| Organizer.FirstBlocked | file_organizer.py:144-147 | the row at which provisioning stops: a blocked row (absent category path with a file on its way), with no blocked row before it, or the end of the table |
| Organizer.NoRowBlocked | file_organizer.py:144-147 | no row is blocked exactly when every category path exists or has no file on its way |
| Organizer.ExistingAncestors | file_organizer.py:146 | in a well-formed tree every proper ancestor of an existing path is a folder, so os.path.exists on a path implies its folders exist |
| Organizer.FileTree.Provision | file_organizer.py:144-148 | succeeds exactly when no row is blocked; the folders afterwards are the old ones plus the ancestors of every absent category path in the rows before the first blocked row (all rows on success), so a failure leaves the earlier rows' folders in place; on success every category path exists; files never change |
| Organizer.ProvisionStops | file_organizer.py:144-147 | when os.makedirs fails at row i, row i is the first blocked row and the folders are those created by the rows before it |
| Organizer.ProvisionCompletes | file_organizer.py:144-148 | after every row, no row was blocked, all rows' folders were created and every category path exists |
| Organizer.NewDirsAvoidLaterRows | file_organizer.py:144-148 | creating one category folder never creates the path of a later category, so each existence check sees the state from before provisioning |
| Organizer.ProvisionStep | file_organizer.py:144-148 | skipping an existing category path, or creating an absent creatable one, extends the provisioned state by one row |
| Organizer.FileTree.GetAllFiles | file_organizer.py:124-131 | returns each file at most once, and a file is returned exactly when it lies below the chosen folder and no segment of its folder's full path names a category |
| Organizer.TargetNotDiscoverable | file_organizer.py:127-128 | a destination inside a category folder is never collected, so a collected file is never its own destination |
| Organizer.FileTree.FreeTarget | file_organizer.py:165-174 | the destination is the n-th candidate name in the category folder, it does not exist, and every earlier candidate exists: the original name when it is free, else the least free base_n + ext |
| Organizer.TriedGrows | file_organizer.py:168-174 | each probe adds a candidate not tried before, so the search ends because only finitely many paths exist |
| Organizer.FirstFreeUnique | file_organizer.py:168-174 | the least free candidate for a file is determined by the tree: two least free candidates are the same path |
| Organizer.FreeNameKept | file_organizer.py:165-168 | a file whose own name is free in its category folder is moved under that name |
| Organizer.FileTree.Move | file_organizer.py:176 | succeeds exactly when the destination's folder exists; the file then leaves its old path and appears at the destination; folders never change |
| Organizer.FileTree.MoveAll | file_organizer.py:154-178 | the count equals the number of files moved; each move goes to the least free candidate in the tree that move saw; the loop stops early exactly at the first file whose category folder is not a folder, every earlier file's category folder being one; the file set is the old one minus the moved sources plus the destinations; folders never change |
| Organizer.MoveNext | file_organizer.py:154-178 | moving the next collected file to its free slot keeps that bookkeeping |
| Organizer.MoveLoopNext | file_organizer.py:154-178 | a successful move of the next file to its least free candidate extends the loop's record: placement, least-free choice and found category folders |
| Organizer.SlotFolder | file_organizer.py:165-173 | every candidate destination of a file lies directly in that file's category folder: its parent is that folder |
| Organizer.AllFirstFreeAt | file_organizer.py:165-176 | the k-th destination was the least free candidate for the k-th file in the tree left by the first k moves |
| Organizer.ProvisionedCategoryFolder | file_organizer.py:144-176 | once every category path exists, a category folder is a folder exactly when it is not a file, so a move fails exactly when its category path is a file |
| Organizer.AllPlacedAt | file_organizer.py:154-176 | the k-th collected file went to the k-th destination, in its category folder, under a numbered variant of its own name |
| Organizer.RelocationKeepsCount | file_organizer.py:176-177 | moving files neither creates nor loses any: the number of files is unchanged |
| Organizer.FileTree.Cleanup | file_organizer.py:181-186 | the folders left are exactly `Pruned`: a folder strictly below the chosen one is removed iff its subtree has no file and no category-named folder; files never change |
| Organizer.PrunableStep | file_organizer.py:181-186 | a folder is prunable iff it is not category-named, holds no file directly, and all its subfolders are prunable, so the bottom-up rule (remove when empty at examination and not category-named) removes exactly the prunable folders |
| Organizer.RemoveEmptyDir | file_organizer.py:185 | removing an empty folder keeps the filesystem well formed |
| Organizer.FileTree.IsEmpty | file_organizer.py:184 | in a well-formed tree os.listdir(d) is empty exactly when no file and no folder lies below d |
| Organizer.EmptyDirHoldsNothing | file_organizer.py:184 | a folder with no direct child holds nothing at any depth, and conversely |
| Organizer.CleanupKeeps | file_organizer.py:181-186 | the chosen folder, folders outside it and category-named folders are never removed |
| Organizer.CleanupRemovesEmpty | file_organizer.py:181-186 | an empty folder below the chosen one that is not category-named is removed, also when it sits inside a category folder |
| Organizer.CleanupKeepsNonEmpty | file_organizer.py:181-186 | a folder that holds a file or a surviving subfolder survives |
| Organizer.FileTree.OrganizeFiles | file_organizer.py:142-193 | the run succeeds exactly when no provisioning row is blocked and no collected file's category path is a file; on success every collected file moved, the collected files are exactly the files outside category folders and the folders left are the provisioned ones minus the prunable ones; every move went to the least free candidate of its moment; a blocked row fails before collecting anything, leaving the folders of the earlier rows; otherwise the count stops at the first file whose category path is a file and no folder is removed |
| Organizer.NothingLeftToCollect | file_organizer.py:124-131 | after a successful run no file remains that a second run would collect, so sorting twice moves nothing the second time |

## Left out

- The Qt user interface is not modelled: the window, widgets, style sheet, folder dialog and message boxes (file_organizer.py:9-122, 189, 193, 195-206).
- The empty-field guard (file_organizer.py:134-137) is not modelled. It tests the GUI text field; `OrganizeFiles` takes the folder as a parameter.
- Status messages (`add_status`, the Polish texts) are not modelled. They change no file or folder.
- Exception handler (file_organizer.py:191-193): any failing filesystem call ends the run. The model raises this for exactly two failures: `os.makedirs` meeting a file on its way, and `shutil.move` into a folder that does not exist. It reports `Failed` with the number of files already moved. Other OS failures are not modelled: permissions, full disks, other processes changing the tree, `os.rmdir` errors, and unreadable folders during a walk.
- Paths are sequences of segments. Separators, `os.path.join`, absolute versus relative paths, symbolic links and case-insensitive filesystems are not modelled.
- Filenames.Lower: lower-cases ASCII letters only, whereas Python's `str.lower` also folds non-ASCII letters, some of them into ASCII ones. KELVIN SIGN (U+212A) becomes `k`, so a file named `a.M\u212AV` lands in WIDEO in the source and in INNE in the model: for such names the classification differs, not only the treatment of case variants.
- Organizer.FileTree.Move: modelled only for a free destination. The pipeline never moves onto an existing path, so `shutil.move`'s overwrite and copy-then-delete behaviour is not modelled.
- Organizer.FileTree.OrganizeFiles: does not state that no collected file remains after a successful run. That statement is `NothingLeftToCollect`, which applies to the method's postconditions. It also does not state that the file count is unchanged; `RelocationKeepsCount` applies the same way.
- The order in which os.walk visits folders and files is not modelled. Every order is allowed, so the collected sequence and the order of removals are not fixed.
