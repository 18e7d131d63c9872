/** `FileOrganizer._get_category`: the category of a file is the first rule,
    in the order the rules were loaded, whose extension set holds the file's
    lower-cased suffix; a file no rule claims goes to "other". */
module Classifier {
  import opened Paths

  /** The loaded rules in insertion order: each category with its extensions
      (lower-case, with the leading dot, e.g. ".pdf"). */
  type Rules = seq<(string, set<string>)>

  /** The category of files that no rule claims. */
  const Other: string := "other"

  /** Rule `i` is the first one whose extension set holds `ext`. */
  predicate FirstMatch(rules: Rules, ext: string, i: int)
  {
    0 <= i < |rules| && ext in rules[i].1
    && forall j :: 0 <= j < i ==> ext !in rules[j].1
  }

  predicate Claimed(rules: Rules, ext: string)
  {
    exists i :: 0 <= i < |rules| && ext in rules[i].1
  }

  /** The loop over `self.rules.items()` with its early return. */
  function Category(rules: Rules, ext: string): (r: string)
    ensures Claimed(rules, ext) ==> exists i :: FirstMatch(rules, ext, i) && r == rules[i].0
    ensures !Claimed(rules, ext) ==> r == Other
  {
    if rules == [] then Other
    else if ext in rules[0].1 then
      assert FirstMatch(rules, ext, 0);
      rules[0].0
    else
      SkipRule(rules, ext);
      Category(rules[1..], ext)
  }

  /** Skipping a first rule that does not claim `ext` shifts every match down by one. */
  lemma SkipRule(rules: Rules, ext: string)
    requires rules != [] && ext !in rules[0].1
    ensures Claimed(rules, ext) <==> Claimed(rules[1..], ext)
    ensures forall i :: FirstMatch(rules[1..], ext, i) ==> FirstMatch(rules, ext, i + 1)
  {
    if Claimed(rules, ext) {
      var i :| 0 <= i < |rules| && ext in rules[i].1;
      assert rules[1..][i - 1] == rules[i];
    }
  }

  /** The extension `_get_category` looks up: the file's suffix, lower-cased.
      It is empty or a dot followed by at least one character and no other
      dot, and it has no upper-case ASCII letter. */
  function Extension(file: Path): (ext: string)
    ensures |ext| == |Suffix(Name(file))|
    ensures ext == "" || (|ext| >= 2 && ext[0] == '.' && '.' !in ext[1..])
    ensures forall i :: 0 <= i < |ext| ==> !('A' <= ext[i] <= 'Z')
    ensures SameIgnoringCase(ext, Suffix(Name(file)))
  {
    var suffix := Suffix(Name(file));
    StemSuffixSplit(Name(file));
    LowerKeepsSuffixShape(suffix);
    Lower(suffix)
  }

  /** Lower-casing a suffix leaves it a suffix: empty, or a dot, at least one
      more character and no further dot. */
  lemma LowerKeepsSuffixShape(suffix: string)
    requires suffix == "" || (|suffix| >= 2 && suffix[0] == '.' && '.' !in suffix[1..])
    ensures var ext := Lower(suffix);
      ext == "" || (|ext| >= 2 && ext[0] == '.' && '.' !in ext[1..])
  {
    var ext := Lower(suffix);
    if suffix != "" {
      forall j | 1 <= j < |ext| ensures ext[j] != '.' {
        assert suffix[1..][j - 1] == suffix[j];
      }
      assert forall k :: 0 <= k < |ext| - 1 ==> ext[1..][k] == ext[k + 1];
    }
  }

  /** `_get_category(file_path)`: the first rule in order that holds the
      file's extension, "other" when none does. */
  function GetCategory(rules: Rules, file: Path): (r: string)
    ensures Claimed(rules, Extension(file)) ==>
              exists i :: FirstMatch(rules, Extension(file), i) && r == rules[i].0
    ensures !Claimed(rules, Extension(file)) ==> r == Other
  {
    Category(rules, Extension(file))
  }

  /** First match wins: when some rule claims the extension, the category is
      the earliest such rule, and no earlier rule claims it. */
  lemma GetCategoryFirstMatch(rules: Rules, file: Path, i: int)
    requires 0 <= i < |rules| && Extension(file) in rules[i].1
    ensures exists k :: 0 <= k <= i && GetCategory(rules, file) == rules[k].0
                        && Extension(file) in rules[k].1
                        && forall j :: 0 <= j < k ==> Extension(file) !in rules[j].1
  {
    var ext, r := Extension(file), Category(rules, Extension(file));
    assert Claimed(rules, ext);
    var k :| FirstMatch(rules, ext, k) && r == rules[k].0;
    assert k <= i;
  }

  /** With distinct category names the result names the rule: rule `i` is
      the first match exactly when its name is the result (for a rule not
      itself called "other", which could also be the fallback). */
  lemma GetCategoryExactly(rules: Rules, file: Path, i: int)
    requires forall a, b :: 0 <= a < b < |rules| ==> rules[a].0 != rules[b].0
    requires 0 <= i < |rules|
    ensures FirstMatch(rules, Extension(file), i) ==> GetCategory(rules, file) == rules[i].0
    ensures GetCategory(rules, file) == rules[i].0 && rules[i].0 != Other
            ==> FirstMatch(rules, Extension(file), i)
  {
    var ext, r := Extension(file), Category(rules, Extension(file));
    if FirstMatch(rules, ext, i) {
      assert Claimed(rules, ext);
      var k :| FirstMatch(rules, ext, k) && r == rules[k].0;
      assert k == i;
    }
  }

  /** A file no rule claims is filed under "other". */
  lemma GetCategoryUnclaimed(rules: Rules, file: Path)
    requires forall i :: 0 <= i < |rules| ==> Extension(file) !in rules[i].1
    ensures GetCategory(rules, file) == Other
  {
  }

  /** Letter case in the suffix does not matter: `Photo.JPG` and `photo.jpg`
      land in the same category. */
  lemma GetCategoryIgnoresCase(rules: Rules, a: Path, b: Path)
    requires SameIgnoringCase(Suffix(Name(a)), Suffix(Name(b)))
    ensures GetCategory(rules, a) == GetCategory(rules, b)
  {
    LowerIgnoresCase(Suffix(Name(a)), Suffix(Name(b)));
  }
}
