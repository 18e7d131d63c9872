# File organizer, modelled in Dafny

The organizer walks a directory tree and files every regular file it finds
under `root/<category>/<YYYY-MM-DD>/<name>`. The category is the first rule,
in rule order, whose extension set holds the file's lower-cased suffix, and
`"other"` when no rule does. The date is the day the file is reached. When
the destination is taken, a file with the same MD5 digest is left where it
is. A file with a different digest is moved beside the destination as
`<stem>_conflict<suffix>`. Each move appends one line to the organizer's
log.

The project models `FileOrganizer` from `organizer/core.py`:

- `paths.dfy` (`Paths`): the pathlib operations the code uses: `name`,
  `parent`, `suffix`, `stem`, `str(path)`, and ASCII `str.lower`.
- `dates.dfy` (`Dates`): `strftime("%Y-%m-%d")`.
- `classifier.dfy` (`Classifier`): `_get_category`, a first-match search over
  the rules in order.
- `destination.dfy` (`Destination`): `_create_destination`.
- `filesystem.dfy` (`FileSystem`): the filesystem as a map from paths to
  bytes plus a set of directories, kept a well-formed tree.
  `mkdir(parents=True, exist_ok=True)` and `shutil.move` are functions on it.
- `organizer.dfy` (`Organizer`): one loop iteration of `organize` as the
  function `Step`, the whole walk as `Run`, and the lemmas about both. The
  class `FileOrganizer` holds the mutable `files`, `dirs` and `log` and the
  imperative `Organize` loop, whose body is the method `OrganizeEntry`. The
  loop is proved to leave exactly the state `Run` describes, and each pass of
  its body exactly the state `Step` describes.
- `wrappers.dfy` (`Wrappers`): an `Option` type.

Inputs the code reads from the environment are parameters here:

- The walk `root.glob('**/*')` is a fixed sequence of paths.
- `datetime.now()` is called once per file. It is a sequence `stamps`:
  entry `walk[i]` is reached on day `stamps[i]`.
- `hashlib.md5(...).hexdigest()` is a function `md5` from content to digest.
  Only whether two digests are equal matters.

`organize` catches no exceptions. The three that a filesystem tree can
provoke end the walk and are returned as a `Fault`:

- `mkdir` hits a regular file on the destination folder's path.
- The destination is a directory, so reading its bytes fails.
- `shutil.move` into an existing directory that already has an entry of that
  name raises `shutil.Error`.

The filesystem keeps everything done before the fault.

Moving onto an existing regular file replaces it, as POSIX `rename` does.
So when a later file's conflict name is already taken by the conflict copy
an earlier file left, the later file overwrites that copy without an error:
the copy's bytes are lost and one file fewer remains
(`StepConflictOverwritesEarlierCopy`).

Where the repository's other material and `core.py` disagree, the model
follows `core.py`:

- Unmatched files go to `"other"`. The test at `tests/test_organizer.py:20`
  expects `None`.
- There is no dry-run mode and no statistics result.
- The folder is a full date, not a year.
- Rules are plain extension sets. There is no per-category layout and no
  conflict-name template.

`core.py` stores the whole value `load_rules()` returns. `rules.py:13-15`
only checks that this value has the top-level keys `categories` and
`conflict`; it may have more. So, as written, `_get_category` iterates over
the top-level entries. On the first one, `rule['extensions']`
(`core.py:16`) raises `KeyError` unless that entry itself holds a key named
`extensions`. For the `categories` entry, that would mean a category
literally named "extensions". So the code as written classifies no file. The
model deliberately uses the category table instead: the rules are the
ordered sequence of (category, extension set) pairs under `categories`.

## Model

| member | source | states |
|---|---|---|
| Paths.Name | organizer/core.py:22 | the name of a non-empty path is its last component |
| Paths.Parent | organizer/core.py:29 | the parent of a non-empty path is the path without its last component, and parent plus name gives the path back |
| Paths.Suffix | organizer/core.py:14 | the suffix is a tail of the name; it is non-empty exactly when the name's last dot is neither its first nor its last character, and then it starts at that dot |
| Paths.Stem | organizer/core.py:38 | the stem is a prefix of the name, and the whole name when there is no suffix |
| Paths.StemSuffixSplit | organizer/core.py:38 | stem followed by suffix is the file name; a suffix is empty or a dot, at least one more character and no further dot; a non-empty suffix has a non-empty stem |
| Paths.LeadingDotHasNoSuffix | organizer/core.py:14 | a name whose only dot is its first character (".bashrc") has an empty suffix and is its own stem |
| Paths.LowerChar | organizer/core.py:14 | an upper-case ASCII letter becomes the same letter in lower case; every other character is kept |
| Paths.Lower | organizer/core.py:14 | the result has the same length, equals the input up to ASCII letter case, and has no upper-case ASCII letter |
| Paths.PathString | organizer/core.py:33 | `str(path)` is at least as long as the path's name; how the components are joined is stated by `Paths.PathStringConcat` |
| Paths.PathStringEndsWithName | organizer/core.py:33 | `str(path)` is "." for the empty path, ends with the path's name, and puts "/" before that name when the path has two or more components |
| Paths.PathStringConcat | organizer/core.py:33 | `str(p / q)` is `str(p)`, a "/" and `str(q)`: every component of a non-empty path appears, in order, separated by "/" |
| Paths.PathStringSnoc | organizer/core.py:33 | appending one component to a non-empty path appends "/" and that component to `str(path)` |
| Paths.LowerIgnoresCase | organizer/core.py:14 | two strings that differ only in ASCII letter case lower-case to the same string |
| Dates.FormatDate | organizer/core.py:21 | the `%Y-%m-%d` string is 10 characters long, with '-' at indices 4 and 7 and digits elsewhere; its year, month and day fields read back as the date's year, month and day; a month or day below 10 gets a leading '0' |
| Dates.FormatDateInjective | organizer/core.py:21 | two valid dates with the same folder name are the same date |
| Classifier.Extension | organizer/core.py:14 | the looked-up extension equals the file's suffix up to ASCII letter case and has no upper-case ASCII letter, so it is the suffix lower-cased; it is empty or a dot, at least one more character and no further dot |
| Classifier.LowerKeepsSuffixShape | organizer/core.py:14 | lower-casing a suffix keeps it empty or a dot followed by at least one character and no further dot |
| Classifier.Category | organizer/core.py:15-18 | when some rule holds the extension, the result is the name of a rule that holds it and that no earlier rule holds; when no rule holds it, the result is "other" |
| Classifier.GetCategory | organizer/core.py:13-18 | when some rule holds the file's lower-cased suffix, the category is the name of the first rule that holds it; otherwise it is "other" |
| Classifier.GetCategoryFirstMatch | organizer/core.py:13-17 | if rule i claims the file's lower-cased suffix, the category is that of some rule k <= i that claims it, and no rule before k claims it |
| Classifier.GetCategoryExactly | organizer/core.py:15-17 | with distinct category names: rule i being the first match implies it is the result, and a result equal to rule i's name (other than "other") implies rule i is the first match |
| Classifier.GetCategoryUnclaimed | organizer/core.py:18 | a file whose lower-cased suffix no rule holds is classified "other" |
| Classifier.GetCategoryIgnoresCase | organizer/core.py:14 | two files whose suffixes differ only in letter case get the same category |
| Destination.CreateDestination | organizer/core.py:20-22 | the destination is the root followed by three components; it keeps the file's name; its folder is root/category/date |
| Destination.DestinationShape | organizer/core.py:20-22 | the date folder is named by the formatted date and lies directly under root/category, which is named by the category |
| Destination.DestinationFolderDetermines | organizer/core.py:21-22 | two destinations in the same folder have the same category and the same date |
| FileSystem.MakeDirs | organizer/core.py:29 | after mkdir the folder exists, no directory is lost, and every new directory is a prefix of the folder |
| FileSystem.MakeDirsExisting | organizer/core.py:29 | in a well-formed tree, mkdir of an existing directory is not blocked and changes nothing |
| FileSystem.MakeDirsTwice | organizer/core.py:29 | a second mkdir of the same folder changes nothing |
| FileSystem.MakeDirsPreservesTree | organizer/core.py:29 | an mkdir that is not blocked keeps the tree well formed |
| FileSystem.Rename | organizer/core.py:32 | the target holds the source's bytes, the source path is gone (unless it is the target), and every other path is unchanged |
| FileSystem.RenamePreservesTree | organizer/core.py:32 | renaming a file to a non-directory path whose proper prefixes are all directories keeps the tree well formed |
| FileSystem.MoveTarget | organizer/core.py:39 | a move onto an existing directory lands inside it under the file's own name; onto any other path, at that path |
| FileSystem.ShutilMove | organizer/core.py:39 | for a destination whose folder exists: the move raises exactly when the destination is a directory that already holds an entry of the file's name; otherwise the file lands at the destination, or inside it under its own name when the destination is a directory, with its bytes, the source path gone and every other path unchanged; a well-formed tree stays well formed |
| Organizer.ConflictName | organizer/core.py:38 | the conflict name differs from the original name and is 9 characters longer |
| Organizer.ConflictNameKeepsSuffix | organizer/core.py:38 | a conflict copy of a name with a suffix has the same suffix, and its stem is the original stem followed by `_conflict` |
| Organizer.MovedEntry | organizer/core.py:33 | a plain-move log line is "Moved ", then `str(item)`, then " to ", then `str(dest)`, and nothing else |
| Organizer.ConflictEntry | organizer/core.py:40 | a conflict log line starts with "Resolved conflict: ", and the rest of it is the new name |
| Organizer.LogEntriesDistinct | organizer/core.py:33-40 | a plain-move line never equals a conflict line |
| Organizer.DestinationOf | organizer/core.py:27-28 | the destination of a file keeps its name and lies in root/category/date, where the category is the one `_get_category` gives |
| Organizer.Step | organizer/core.py:26-40 | one iteration leaves the log unchanged, or appends just the "Moved" line for the file's destination, or just the "Resolved conflict" line for its conflict name |
| Organizer.Run | organizer/core.py:25-40 | over the walk the log is append-only and grows by at most one entry per walked path |
| Organizer.StepSkipsNonFiles | organizer/core.py:26 | an entry that is not a regular file leaves state and log unchanged and raises nothing |
| Organizer.StepFaults | organizer/core.py:29-39 | one iteration raises `MkdirFailed` exactly when mkdir is blocked, with nothing changed; `ReadFailed` exactly when the destination is a directory after mkdir; `MoveFailed` exactly when mkdir succeeds, the destination is a file with a different digest, and the conflict target is a directory that already holds the file's name, and then it names that target; after any fault the files and the log are unchanged, and only mkdir's directories were added |
| Organizer.StepToFreeDestination | organizer/core.py:29-33 | when the destination is free and mkdir succeeds, the new state is the old files renamed to the destination, the old directories plus the folder, and the log plus the "Moved" line, with no exception |
| Organizer.StepMovesToFreeDestination | organizer/core.py:31-33 | when the destination is free and mkdir succeeds: the file is at the destination with its bytes, the source is gone, no other file changes, the folder exists, and the log gains exactly the "Moved ..." entry |
| Organizer.StepSkipsDuplicate | organizer/core.py:34-37 | when the destination holds bytes with the same digest, files, directories and log are all unchanged |
| Organizer.StepResolvesConflict | organizer/core.py:37-40 | when the digests differ and the conflict name is not a directory: the file moves to the destination folder as stem + "_conflict" + suffix, a name different from the destination's; the destination keeps its bytes; the log gains exactly the "Resolved conflict: ..." entry |
| Organizer.StepConflictOverwritesEarlierCopy | organizer/core.py:37-39 | when the conflict name is already taken by a regular file, the move raises nothing, that file's bytes are replaced by the moved file's, and one file fewer remains |
| Organizer.StepPreservesTree | organizer/core.py:25-40 | one iteration keeps the filesystem a well-formed tree, whether or not it raises |
| Organizer.StepNeverAddsFiles | organizer/core.py:31-40 | one iteration never increases the number of regular files |
| Organizer.RunPreservesTree | organizer/core.py:24-40 | the whole walk keeps the filesystem a well-formed tree |
| Organizer.RunNeverAddsFiles | organizer/core.py:24-40 | over the walk the number of regular files never increases |
| Organizer.RunSoleFile | organizer/core.py:24-33 | a walk over the only file there is, whose destination is free and whose folder mkdir can make, leaves just that file at its destination, the folder created, and exactly the "Moved" line, with no exception |
| Organizer.OrganizeOnePdf | organizer/core.py:24-33 | with rules documents/.pdf and images/.jpg, walking r/test.pdf on 2023-06-15 leaves only r/documents/2023-06-15/test.pdf with the same bytes, and logs one "Moved" line |
| Organizer.FileOrganizer.constructor | organizer/core.py:8-11 | the organizer keeps the root and rules it is given and starts with an empty log |
| Organizer.FileOrganizer.MakeParents | organizer/core.py:29 | succeeds exactly when no prefix of the folder is a file; then the directories are the old ones plus the folder and its prefixes, otherwise unchanged; the tree stays well formed |
| Organizer.FileOrganizer.Move | organizer/core.py:39 | for a destination whose folder exists, the files afterwards are what `shutil.move` makes of them, or unchanged when it raises; the tree stays well formed |
| Organizer.FileOrganizer.OrganizeEntry | organizer/core.py:26-40 | one pass of the loop body leaves exactly the files, directories, log and exception that `Step` gives for the old state, and keeps the tree well formed |
| Organizer.FileOrganizer.Organize | organizer/core.py:24-40 | the loop leaves exactly the files, directories, log and fault that `Run` gives for the old state; the tree stays well formed; the old log is a prefix of the new one, with at most one more entry per walked path |

## Left out

- Classifier.GetCategory: looks up the `categories` table rather than the whole config that `core.py` stores, because as written `rule['extensions']` at `core.py:16` raises `KeyError` and no file is ever classified.
- Loading the rules (`organizer/rules.py`): YAML parsing is I/O in a foreign library. The check for the `categories` and `conflict` keys is not modelled. The rules are a parameter.
- The command-line script (`scripts/organize_files.py`): argument parsing and printing.
- The MD5 algorithm: it is the parameter `md5`.
- The clock: `datetime.now()` readings are the parameter `stamps`.
- The walk: `glob('**/*')` is a fixed sequence. Its order, its laziness, and whether it yields paths created during the walk are not modelled.
- Errors outside the modelled tree: permission errors, unreadable files, disk full, and cross-device moves, where `shutil.move` copies and then deletes.
- Path normalisation: paths are component sequences. Anchors, `..`, and the empty component are not treated specially.
- Dates.FormatDate: requires a year from 1000 to 9999. For earlier years, how many digits `%Y` prints depends on the platform's C library.
- Paths.Lower: lower-cases ASCII letters only, while `str.lower` also folds other Unicode letters.
