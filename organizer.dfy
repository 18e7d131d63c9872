/** `FileOrganizer.organize`: walk the files found under the root, classify
    each one, resolve its dated destination, create the destination folder,
    and move the file there; when the destination is taken, leave identical
    content alone and move different content to `<stem>_conflict<suffix>`
    beside it. Every move is recorded in the organizer's log. */
module Organizer {
  import opened Wrappers
  import opened Paths
  import opened Dates
  import opened Classifier
  import opened Destination
  import opened FileSystem

  /** `hashlib.md5(...).hexdigest()`, kept abstract: only the equality of two
      digests decides anything. */
  type Digest = string

  /** The filesystem and the log as the organizer sees them. */
  datatype State = State(files: map<Path, Content>, dirs: set<Path>, log: seq<string>)

  /** The exceptions `organize` lets escape, which end the walk. */
  datatype Fault =
    | MkdirFailed(folder: Path)   // a prefix of the destination folder is a regular file
    | ReadFailed(path: Path)      // the destination is a directory, so reading its bytes fails
    | MoveFailed(target: Path)    // shutil.Error: the conflict target directory already has that entry

  /** The name a conflicting file is given: `f"{stem}_conflict{suffix}"`. It
      never coincides with the name it was derived from, so a conflicting file
      is never moved onto the file it conflicts with. */
  function ConflictName(name: string): (r: string)
    ensures r != name
    ensures |r| == |name| + 9
  {
    StemSuffixSplit(name);
    Stem(name) + "_conflict" + Suffix(name)
  }

  /** A conflict copy keeps its extension, so it would be classified like the original. */
  lemma ConflictNameKeepsSuffix(name: string)
    requires HasSuffix(name)
    ensures Suffix(ConflictName(name)) == Suffix(name)
    ensures Stem(ConflictName(name)) == Stem(name) + "_conflict"
  {
    var c := ConflictName(name);
    var i := |Stem(name)| + 9;
    var suffix := Suffix(name);
    StemSuffixSplit(name);
    assert c[i..] == suffix;
    assert c[i] == '.';
    assert c[i + 1..] == suffix[1..];
    assert RFind(c, '.') == i;
  }

  /** The log line of a plain move: `f"Moved {item} to {dest}"`. */
  function MovedEntry(item: Path, dest: Path): (r: string)
    ensures |r| == 10 + |PathString(item)| + |PathString(dest)| && r[..6] == "Moved "
    ensures r[6..6 + |PathString(item)|] == PathString(item)
    ensures r[|r| - |PathString(dest)| - 4..] == " to " + PathString(dest)
  {
    ConcatParts("Moved ", PathString(item), " to ", PathString(dest));
    "Moved " + PathString(item) + " to " + PathString(dest)
  }

  /** The four parts of a concatenation can be sliced back out of it. */
  lemma ConcatParts(a: string, b: string, c: string, d: string)
    ensures var r := a + b + c + d;
      && |r| == |a| + |b| + |c| + |d|
      && r[..|a|] == a && r[|a|..|a| + |b|] == b && r[|r| - |d| - |c|..] == c + d
  {
    var r := a + b + c + d;
    assert r[|a|..|a| + |b|] == b;
    assert r[|r| - |d| - |c|..] == c + d;
  }

  /** The log line of a conflict move, from which the new name can be read back. */
  function ConflictEntry(newName: string): (r: string)
    ensures |r| == 19 + |newName| && r[..19] == "Resolved conflict: " && r[19..] == newName
  {
    "Resolved conflict: " + newName
  }

  /** The log tells the two kinds of move apart. */
  lemma LogEntriesDistinct(item: Path, dest: Path, newName: string)
    ensures MovedEntry(item, dest) != ConflictEntry(newName)
  {
    assert MovedEntry(item, dest)[0] == 'M' && ConflictEntry(newName)[0] == 'R';
  }

  /** Where `organize` files `item` on day `today`. */
  function DestinationOf(root: Path, rules: Rules, item: Path, today: Date): (dest: Path)
    requires ValidDate(today)
    ensures |dest| == |root| + 3 && dest[..|root|] == root && Name(dest) == Name(item)
    ensures Parent(dest) == root + [GetCategory(rules, item), FormatDate(today)]
  {
    CreateDestination(root, GetCategory(rules, item), today, item)
  }

  /** One iteration of the loop in `organize`, for the walked entry `item`
      reached on day `today`: the state afterwards, and the exception that
      ends the walk, if any. */
  function Step(root: Path, rules: Rules, md5: Content -> Digest, s: State, item: Path, today: Date): (r: (State, Option<Fault>))
    requires ValidDate(today)
    ensures r.0.log == s.log
         || r.0.log == s.log + [MovedEntry(item, DestinationOf(root, rules, item, today))]
         || r.0.log == s.log + [ConflictEntry(ConflictName(Name(item)))]
  {
    if item !in s.files then (s, None)
    else
      var dest := DestinationOf(root, rules, item, today);
      var parent := Parent(dest);
      if MkdirBlocked(s.files, parent) then (s, Some(MkdirFailed(parent)))
      else
        var s1 := s.(dirs := MakeDirs(s.dirs, parent));
        if dest !in s1.files && dest !in s1.dirs then
          // shutil.move onto a free path inside an existing folder is a rename
          (s1.(files := Rename(s1.files, item, dest), log := s1.log + [MovedEntry(item, dest)]), None)
        else if dest !in s1.files then (s1, Some(ReadFailed(dest)))
        else if md5(s1.files[item]) == md5(s1.files[dest]) then (s1, None)
        else
          var newName := ConflictName(Name(item));
          var target := parent + [newName];
          assert Parent(target) == parent;
          match ShutilMove(s1.files, s1.dirs, item, target)
          case None => (s1, Some(MoveFailed(target)))
          case Some(f) => (s1.(files := f, log := s1.log + [ConflictEntry(newName)]), None)
  }

  predicate ValidStamps(stamps: seq<Date>)
  {
    forall i :: 0 <= i < |stamps| ==> ValidDate(stamps[i])
  }

  /** The whole walk: entry `walk[i]` is reached on day `stamps[i]`; the first
      exception stops the walk. */
  function Run(root: Path, rules: Rules, md5: Content -> Digest, s: State, walk: seq<Path>, stamps: seq<Date>): (r: (State, Option<Fault>))
    requires |stamps| == |walk| && ValidStamps(stamps)
    ensures |s.log| <= |r.0.log| <= |s.log| + |walk| && r.0.log[..|s.log|] == s.log
    decreases |walk|
  {
    if walk == [] then (s, None)
    else
      var (s', fault) := Step(root, rules, md5, s, walk[0], stamps[0]);
      assert |s.log| <= |s'.log| <= |s.log| + 1 && s'.log[..|s.log|] == s.log;
      if fault.Some? then (s', fault)
      else
        var r := Run(root, rules, md5, s', walk[1..], stamps[1..]);
        assert r.0.log[..|s.log|] == r.0.log[..|s'.log|][..|s.log|];
        r
  }

  /** Entries that are not regular files (directories, paths already moved
      away) are skipped without a trace. */
  lemma StepSkipsNonFiles(root: Path, rules: Rules, md5: Content -> Digest, s: State, item: Path, today: Date)
    requires ValidDate(today) && item !in s.files
    ensures Step(root, rules, md5, s, item, today) == (s, None)
  {
  }

  /** The three exceptions `organize` lets escape from one iteration, and what
      the filesystem holds when one does: a blocked mkdir raises before
      anything changes; a directory at the destination raises after mkdir has
      made the folder; a failed move raises after mkdir and leaves the files
      as they were. In every case the log is unchanged. */
  lemma StepFaults(root: Path, rules: Rules, md5: Content -> Digest, s: State, item: Path, today: Date)
    requires ValidDate(today) && item in s.files
    ensures var dest := DestinationOf(root, rules, item, today);
      var parent := Parent(dest);
      var (t, fault) := Step(root, rules, md5, s, item, today);
      && (MkdirBlocked(s.files, parent) <==> fault == Some(MkdirFailed(parent)))
      && (MkdirBlocked(s.files, parent) ==> t == s)
      && (!MkdirBlocked(s.files, parent) && dest !in s.files && dest in MakeDirs(s.dirs, parent)
          <==> fault == Some(ReadFailed(dest)))
      && (fault.Some? && fault.value.MoveFailed? ==>
            var target := fault.value.target;
            && target == parent + [ConflictName(Name(item))]
            && target in MakeDirs(s.dirs, parent)
            && (target + [Name(item)] in s.files || target + [Name(item)] in MakeDirs(s.dirs, parent)))
      && (fault.Some? ==> t.files == s.files && t.log == s.log)
      && (fault.Some? && !fault.value.MkdirFailed? ==> t.dirs == MakeDirs(s.dirs, parent))
    ensures var dest := DestinationOf(root, rules, item, today);
      var parent := Parent(dest);
      var dirs := MakeDirs(s.dirs, parent);
      var target := parent + [ConflictName(Name(item))];
      var fault := Step(root, rules, md5, s, item, today).1;
      (!MkdirBlocked(s.files, parent) && dest in s.files && md5(s.files[item]) != md5(s.files[dest])
       && target in dirs && (target + [Name(item)] in s.files || target + [Name(item)] in dirs))
      <==> fault == Some(MoveFailed(target))
  {
  }

  /** A file whose destination is free ends up there with its content, its old
      path is gone, no other file changes, the folder exists, and exactly one
      "Moved" entry is logged. */
  lemma StepMovesToFreeDestination(root: Path, rules: Rules, md5: Content -> Digest, s: State, item: Path, today: Date)
    requires ValidDate(today) && Tree(s.files, s.dirs) && item in s.files
    requires var dest := DestinationOf(root, rules, item, today);
      dest !in s.files && dest !in s.dirs && !MkdirBlocked(s.files, Parent(dest))
    ensures var dest := DestinationOf(root, rules, item, today);
      var (t, fault) := Step(root, rules, md5, s, item, today);
      && fault == None
      && dest in t.files && t.files[dest] == s.files[item]
      && item !in t.files
      && (forall p :: p != item && p != dest ==> (p in t.files <==> p in s.files))
      && (forall p :: p in t.files && p != item && p != dest ==> t.files[p] == s.files[p])
      && Parent(dest) in t.dirs && s.dirs <= t.dirs
      && t.log == s.log + [MovedEntry(item, dest)]
  {
    var dest := DestinationOf(root, rules, item, today);
    DestinationShape(root, GetCategory(rules, item), today, item);
    assert dest != item;
  }

  /** The state a move to a free destination leaves, spelled out. */
  lemma StepToFreeDestination(root: Path, rules: Rules, md5: Content -> Digest, s: State, item: Path, today: Date)
    requires ValidDate(today) && item in s.files
    requires var dest := DestinationOf(root, rules, item, today);
      && !MkdirBlocked(s.files, Parent(dest))
      && dest !in s.files && dest !in MakeDirs(s.dirs, Parent(dest))
    ensures var dest := DestinationOf(root, rules, item, today);
      Step(root, rules, md5, s, item, today)
      == (State(Rename(s.files, item, dest), MakeDirs(s.dirs, Parent(dest)), s.log + [MovedEntry(item, dest)]), None)
  {
  }

  /** A file whose destination already holds the same digest is left where it
      is: neither the filesystem nor the log changes. */
  lemma StepSkipsDuplicate(root: Path, rules: Rules, md5: Content -> Digest, s: State, item: Path, today: Date)
    requires ValidDate(today) && Tree(s.files, s.dirs) && item in s.files
    requires var dest := DestinationOf(root, rules, item, today);
      dest in s.files && md5(s.files[item]) == md5(s.files[dest])
    ensures Step(root, rules, md5, s, item, today) == (s, None)
  {
    var dest := DestinationOf(root, rules, item, today);
    var parent := Parent(dest);
    DestinationShape(root, GetCategory(rules, item), today, item);
    assert parent == dest[..|dest| - 1];
    MakeDirsExisting(s.files, s.dirs, parent);
    assert s.(dirs := MakeDirs(s.dirs, parent)) == s;
  }

  /** A file whose destination holds different content is moved, within the
      destination folder, to its conflict name (a different name from the
      destination's), and one "Resolved conflict" entry is logged. */
  lemma StepResolvesConflict(root: Path, rules: Rules, md5: Content -> Digest, s: State, item: Path, today: Date)
    requires ValidDate(today) && Tree(s.files, s.dirs) && item in s.files
    requires var dest := DestinationOf(root, rules, item, today);
      && dest in s.files && md5(s.files[item]) != md5(s.files[dest])
      && Parent(dest) + [ConflictName(Name(item))] !in s.dirs
    ensures var dest := DestinationOf(root, rules, item, today);
      var newName := ConflictName(Name(item));
      var target := Parent(dest) + [newName];
      var (t, fault) := Step(root, rules, md5, s, item, today);
      && fault == None
      && Parent(target) == Parent(dest) && Name(target) != Name(dest) && target != dest
      && t.files == Rename(s.files, item, target)
      && t.files[target] == s.files[item] && t.files[dest] == s.files[dest]
      && item !in t.files
      && t.dirs == s.dirs
      && t.log == s.log + [ConflictEntry(newName)]
  {
    var dest := DestinationOf(root, rules, item, today);
    var parent := Parent(dest);
    var target := parent + [ConflictName(Name(item))];
    DestinationShape(root, GetCategory(rules, item), today, item);
    assert parent == dest[..|dest| - 1];
    MakeDirsExisting(s.files, s.dirs, parent);
    assert Parent(target) == parent;
    assert Name(target) != Name(dest);
    assert item != dest;
  }

  /** Every iteration keeps the tree well formed, whether or not it raises. */
  lemma StepPreservesTree(root: Path, rules: Rules, md5: Content -> Digest, s: State, item: Path, today: Date)
    requires ValidDate(today) && Tree(s.files, s.dirs)
    ensures var t := Step(root, rules, md5, s, item, today).0;
      Tree(t.files, t.dirs)
  {
    if item in s.files {
      var dest := DestinationOf(root, rules, item, today);
      var parent := Parent(dest);
      if !MkdirBlocked(s.files, parent) {
        var dirs := MakeDirs(s.dirs, parent);
        MakeDirsPreservesTree(s.files, s.dirs, parent);
        if dest !in s.files && dest !in dirs {
          MoveTargetAncestors(s.files, dirs, item, dest);
          RenamePreservesTree(s.files, dirs, item, dest);
        }
      }
    }
  }

  /** A later file that conflicts with the same destination replaces the
      conflict copy an earlier one left: that copy's bytes are lost and one
      file fewer remains. */
  lemma StepConflictOverwritesEarlierCopy(root: Path, rules: Rules, md5: Content -> Digest, s: State, item: Path, today: Date)
    requires ValidDate(today) && Tree(s.files, s.dirs) && item in s.files
    requires var dest := DestinationOf(root, rules, item, today);
      && dest in s.files && md5(s.files[item]) != md5(s.files[dest])
      && Parent(dest) + [ConflictName(Name(item))] in s.files
    ensures var target := Parent(DestinationOf(root, rules, item, today)) + [ConflictName(Name(item))];
      var (t, fault) := Step(root, rules, md5, s, item, today);
      && fault == None
      && t.files[target] == s.files[item]
      && |t.files| == |s.files| - 1
  {
    var dest := DestinationOf(root, rules, item, today);
    var parent := Parent(dest);
    var target := parent + [ConflictName(Name(item))];
    assert parent == dest[..|dest| - 1];
    MakeDirsExisting(s.files, s.dirs, parent);
    assert Parent(target) == parent;
    assert Name(target) != Name(item);
    var t := Step(root, rules, md5, s, item, today).0;
    assert t.files == Rename(s.files, item, target);
    assert t.files.Keys == s.files.Keys - {item};
  }

  /** The whole walk keeps the tree well formed. */
  lemma {:induction false} RunPreservesTree(root: Path, rules: Rules, md5: Content -> Digest, s: State, walk: seq<Path>, stamps: seq<Date>)
    requires |stamps| == |walk| && ValidStamps(stamps) && Tree(s.files, s.dirs)
    ensures var t := Run(root, rules, md5, s, walk, stamps).0;
      Tree(t.files, t.dirs)
    decreases |walk|
  {
    if walk != [] {
      StepPreservesTree(root, rules, md5, s, walk[0], stamps[0]);
      var (s', fault) := Step(root, rules, md5, s, walk[0], stamps[0]);
      if fault.None? {
        RunPreservesTree(root, rules, md5, s', walk[1..], stamps[1..]);
      }
    }
  }

  /** Moving never multiplies files: every iteration leaves at most as many
      regular files as it found. */
  lemma StepNeverAddsFiles(root: Path, rules: Rules, md5: Content -> Digest, s: State, item: Path, today: Date)
    requires ValidDate(today)
    ensures |Step(root, rules, md5, s, item, today).0.files| <= |s.files|
  {
    if item in s.files {
      var dest := DestinationOf(root, rules, item, today);
      var parent := Parent(dest);
      if !MkdirBlocked(s.files, parent) {
        var dirs := MakeDirs(s.dirs, parent);
        if dest !in s.files && dest !in dirs {
          RenameKeepsCount(s.files, item, dest);
        } else if dest in s.files && md5(s.files[item]) != md5(s.files[dest]) {
          var target := parent + [ConflictName(Name(item))];
          assert Parent(target) == parent;
          RenameKeepsCount(s.files, item, MoveTarget(dirs, item, target));
        }
      }
    }
  }

  lemma RenameKeepsCount(files: map<Path, Content>, src: Path, dst: Path)
    requires src in files
    ensures |Rename(files, src, dst)| <= |files|
  {
    var r := Rename(files, src, dst);
    assert r.Keys <= (files.Keys - {src}) + {dst};
    assert |files.Keys - {src}| == |files.Keys| - 1;
    assert |(files.Keys - {src}) + {dst}| <= |files.Keys|;
  }

  /** Over the whole walk the number of regular files never grows. */
  lemma {:induction false} RunNeverAddsFiles(root: Path, rules: Rules, md5: Content -> Digest, s: State, walk: seq<Path>, stamps: seq<Date>)
    requires |stamps| == |walk| && ValidStamps(stamps)
    ensures |Run(root, rules, md5, s, walk, stamps).0.files| <= |s.files|
    decreases |walk|
  {
    if walk != [] {
      StepNeverAddsFiles(root, rules, md5, s, walk[0], stamps[0]);
      var (s', fault) := Step(root, rules, md5, s, walk[0], stamps[0]);
      if fault.None? {
        RunNeverAddsFiles(root, rules, md5, s', walk[1..], stamps[1..]);
      }
    }
  }

  /** A walk over `r/test.pdf` on 15 June 2023 files it as
      `r/documents/2023-06-15/test.pdf`. */
  lemma OrganizeOnePdf(md5: Content -> Digest, c: Content)
    ensures var s := State(map[["r", "test.pdf"] := c], {["r"]}, []);
      var (t, fault) := Run(["r"], SampleRules(), md5, s, [["r", "test.pdf"]], [Date(2023, 6, 15)]);
      && fault == None
      && t.files == map[["r", "documents", "2023-06-15", "test.pdf"] := c]
      && t.log == ["Moved " + "r/test.pdf" + " to " + "r/documents/2023-06-15/test.pdf"]
  {
    var item := ["r", "test.pdf"];
    var dest := ["r", "documents", "2023-06-15", "test.pdf"];
    var folder := ["r", "documents", "2023-06-15"];
    SampleDestination();
    SampleFolder();
    SampleMkdir(c);
    MakeDirsAddsNoLonger({["r"]}, folder, dest);
    SampleLogLine();
    RunSoleFile(["r"], SampleRules(), md5, {["r"]}, item, Date(2023, 6, 15), c, dest, folder);
  }

  /** A walk over a single file whose destination is free moves it there and
      logs one line. */
  lemma RunSoleFile(root: Path, rules: Rules, md5: Content -> Digest, dirs: set<Path>, item: Path, today: Date,
                    c: Content, dest: Path, folder: Path)
    requires ValidDate(today)
    requires DestinationOf(root, rules, item, today) == dest && Parent(dest) == folder
    requires !MkdirBlocked(map[item := c], folder) && dest != item && dest !in MakeDirs(dirs, folder)
    ensures Run(root, rules, md5, State(map[item := c], dirs, []), [item], [today])
         == (State(map[dest := c], MakeDirs(dirs, folder), [MovedEntry(item, dest)]), None)
  {
    var s := State(map[item := c], dirs, []);
    StepToFreeDestination(root, rules, md5, s, item, today);
    RenameOnly(item, dest, c);
    assert [item][1..] == [] && [today][1..] == [];
  }

  /** mkdir adds no path longer than the folder it makes. */
  lemma MakeDirsAddsNoLonger(dirs: set<Path>, folder: Path, p: Path)
    requires p !in dirs && |p| > |folder|
    ensures p !in MakeDirs(dirs, folder)
  {
  }

  /** Moving the only file leaves just that file, at its new path. */
  lemma RenameOnly(src: Path, dst: Path, c: Content)
    ensures Rename(map[src := c], src, dst) == map[dst := c]
  {
    assert (map[src := c] - {src}).Keys == {};
  }

  lemma SampleDestination()
    ensures DestinationOf(["r"], SampleRules(), ["r", "test.pdf"], Date(2023, 6, 15))
            == ["r", "documents", "2023-06-15", "test.pdf"]
  {
    SamplePdfCategory();
    SampleDate();
  }

  lemma SampleFolder()
    ensures Parent(["r", "documents", "2023-06-15", "test.pdf"]) == ["r", "documents", "2023-06-15"]
  {
  }

  lemma SampleMkdir(c: Content)
    ensures !MkdirBlocked(map[["r", "test.pdf"] := c], ["r", "documents", "2023-06-15"])
  {
    var folder := ["r", "documents", "2023-06-15"];
    forall j | 1 <= j <= 3 ensures folder[..j] !in map[["r", "test.pdf"] := c] {
      assert |folder[..j]| != 2 || folder[..j][1] != "test.pdf";
    }
  }

  function SampleRules(): Rules
  {
    [("documents", {".pdf"}), ("images", {".jpg"})]
  }

  lemma SamplePdfCategory()
    ensures GetCategory(SampleRules(), ["r", "test.pdf"]) == "documents"
  {
    assert RFind("test.pdf", '.') == 4;
    assert Suffix("test.pdf") == ".pdf";
    assert Lower(".pdf") == ".pdf";
  }

  lemma SampleLogLine()
    ensures MovedEntry(["r", "test.pdf"], ["r", "documents", "2023-06-15", "test.pdf"])
            == "Moved " + "r/test.pdf" + " to " + "r/documents/2023-06-15/test.pdf"
  {
    SampleItemString();
    SampleDestString();
  }

  lemma SampleItemString()
    ensures PathString(["r", "test.pdf"]) == "r/test.pdf"
  {
    assert ["r", "test.pdf"][..1] == ["r"];
  }

  lemma SampleDestString()
    ensures PathString(["r", "documents", "2023-06-15", "test.pdf"]) == "r/documents/2023-06-15/test.pdf"
  {
    var dest := ["r", "documents", "2023-06-15", "test.pdf"];
    assert dest[..3] == ["r", "documents", "2023-06-15"];
    SampleFolderString();
  }

  lemma SampleFolderString()
    ensures PathString(["r", "documents", "2023-06-15"]) == "r/documents/2023-06-15"
  {
    assert ["r", "documents", "2023-06-15"][..2] == ["r", "documents"];
    SampleCategoryString();
  }

  lemma SampleCategoryString()
    ensures PathString(["r", "documents"]) == "r/documents"
  {
    assert ["r", "documents"][..1] == ["r"];
  }

  lemma SampleDate()
    ensures FormatDate(Date(2023, 6, 15)) == "2023-06-15"
  {
    assert Pad4(2023) == "2023";
    assert Pad2(6) == "06";
    assert Pad2(15) == "15";
  }

  /** The organizer object: the root it works on, the rules it loaded, the
      filesystem it sees and the log it keeps. */
  class FileOrganizer {
    const root: Path
    const rules: Rules
    var files: map<Path, Content>
    var dirs: set<Path>
    var log: seq<string>

    ghost predicate Valid()
      reads this
    {
      Tree(files, dirs)
    }

    function Snapshot(): State
      reads this
    {
      State(files, dirs, log)
    }

    /** `FileOrganizer(root_path)`, with the rules already loaded and the
        filesystem as it stands; the log starts empty. */
    constructor (root: Path, rules: Rules, files: map<Path, Content>, dirs: set<Path>)
      requires Tree(files, dirs)
      ensures Valid()
      ensures this.root == root && this.rules == rules
      ensures this.files == files && this.dirs == dirs && log == []
    {
      this.root := root;
      this.rules := rules;
      this.files := files;
      this.dirs := dirs;
      log := [];
    }

    /** `folder.mkdir(parents=True, exist_ok=True)`; false when it would raise. */
    method MakeParents(folder: Path) returns (ok: bool)
      requires Valid()
      modifies this`dirs
      ensures Valid()
      ensures ok == !MkdirBlocked(files, folder)
      ensures dirs == if ok then MakeDirs(old(dirs), folder) else old(dirs)
    {
      ok := !MkdirBlocked(files, folder);
      if ok {
        MakeDirsPreservesTree(files, dirs, folder);
        dirs := MakeDirs(dirs, folder);
      }
    }

    /** `shutil.move(src, dst)`; false when it would raise. */
    method Move(src: Path, dst: Path) returns (ok: bool)
      requires Valid() && src in files
      requires Parent(dst) != [] && Parent(dst) in dirs
      modifies this`files
      ensures Valid()
      ensures ok == ShutilMove(old(files), dirs, src, dst).Some?
      ensures files == if ok then ShutilMove(old(files), dirs, src, dst).value else old(files)
    {
      var moved := ShutilMove(files, dirs, src, dst);
      ok := moved.Some?;
      if ok {
        files := moved.value;
      }
    }

    /** One pass of the loop body of `organize()` for the walked entry `item`,
        reached on day `today`: the result is the exception that ends the walk,
        if any. */
    method OrganizeEntry(item: Path, today: Date, md5: Content -> Digest) returns (fault: Option<Fault>)
      requires Valid() && ValidDate(today)
      modifies this
      ensures Valid()
      ensures (Snapshot(), fault) == Step(root, rules, md5, old(Snapshot()), item, today)
    {
      fault := None;
      if item in files {
        var category := GetCategory(rules, item);
        var dest := CreateDestination(root, category, today, item);
        var parent := Parent(dest);
        var ok := MakeParents(parent);
        if !ok {
          fault := Some(MkdirFailed(parent));
          return;
        }
        if dest !in files && dest !in dirs {
          ok := Move(item, dest);
          // a free path inside an existing folder: shutil.move does not raise
          assert ok;
          log := log + [MovedEntry(item, dest)];
        } else if dest !in files {
          fault := Some(ReadFailed(dest));
        } else {
          var fileHash := md5(files[item]);
          var destHash := md5(files[dest]);
          if fileHash != destHash {
            var newName := ConflictName(Name(item));
            var target := parent + [newName];
            assert Parent(target) == parent;
            ok := Move(item, target);
            if !ok {
              fault := Some(MoveFailed(target));
              return;
            }
            log := log + [ConflictEntry(newName)];
          }
        }
      }
    }

    /** `organize()` over the walked entries `walk`, where `stamps[i]` is the day
        `datetime.now()` reports when `walk[i]` is reached and `md5` the digest.
        The result is the exception that ended the walk, if any. */
    method Organize(walk: seq<Path>, stamps: seq<Date>, md5: Content -> Digest) returns (fault: Option<Fault>)
      requires Valid()
      requires |stamps| == |walk| && ValidStamps(stamps)
      modifies this
      ensures Valid()
      ensures (Snapshot(), fault) == Run(root, rules, md5, old(Snapshot()), walk, stamps)
      ensures |old(log)| <= |log| <= |old(log)| + |walk| && log[..|old(log)|] == old(log)
    {
      var i := 0;
      while i < |walk|
        invariant 0 <= i <= |walk|
        invariant Valid()
        invariant Run(root, rules, md5, Snapshot(), walk[i..], stamps[i..]) == Run(root, rules, md5, old(Snapshot()), walk, stamps)
      {
        assert walk[i..][0] == walk[i] && walk[i..][1..] == walk[i + 1..];
        assert stamps[i..][0] == stamps[i] && stamps[i..][1..] == stamps[i + 1..];
        fault := OrganizeEntry(walk[i], stamps[i], md5);
        if fault.Some? {
          return;
        }
        i := i + 1;
      }
      fault := None;
    }
  }
}
