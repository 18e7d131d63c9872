/** `FileOrganizer._create_destination`: `root / category / "YYYY-MM-DD" / name`. */
module Destination {
  import opened Paths
  import opened Dates

  /** The date folder is the day `datetime.now()` returns when the file is reached;
      `today` stands for that reading. */
  function CreateDestination(root: Path, category: string, today: Date, file: Path): (dest: Path)
    requires ValidDate(today)
    ensures |dest| == |root| + 3 && dest[..|root|] == root
    ensures Name(dest) == Name(file)
    ensures Parent(dest) == root + [category, FormatDate(today)]
  {
    root + [category, FormatDate(today), Name(file)]
  }

  /** The date folder lies directly under the category folder, which lies
      directly under the root. */
  lemma DestinationShape(root: Path, category: string, today: Date, file: Path)
    requires ValidDate(today)
    ensures var dest := CreateDestination(root, category, today, file);
      && Name(Parent(dest)) == FormatDate(today)
      && Parent(Parent(dest)) == root + [category]
      && Name(Parent(Parent(dest))) == category
  {
    var dest := CreateDestination(root, category, today, file);
    assert Parent(Parent(dest)) == root + [category];
  }

  /** Files reached on different days, or classified differently, never share a folder. */
  lemma DestinationFolderDetermines(root: Path, c1: string, d1: Date, c2: string, d2: Date, f1: Path, f2: Path)
    requires ValidDate(d1) && ValidDate(d2)
    requires Parent(CreateDestination(root, c1, d1, f1)) == Parent(CreateDestination(root, c2, d2, f2))
    ensures c1 == c2 && d1 == d2
  {
    var p := Parent(CreateDestination(root, c1, d1, f1));
    assert p == root + [c1, FormatDate(d1)];
    assert p[|root|] == c1 && p[|root| + 1] == FormatDate(d1);
    assert Parent(CreateDestination(root, c2, d2, f2)) == root + [c2, FormatDate(d2)];
    FormatDateInjective(d1, d2);
  }
}
