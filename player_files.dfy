/** The string and list handling of src/player/dynamic_imports.py around
    the files of a player folder: the duplicate check, Python's ordering of
    file names, and the module name built with `str.strip`. */
module PlayerFiles {
  import opened Wrappers
  import opened PlayerClassNames

  /** No file name occurs twice. */
  predicate Distinct(names: seq<string>) {
    forall i, j :: 0 <= i < j < |names| ==> names[i] != names[j]
  }

  /** `set(names)` */
  function ElemSet(names: seq<string>): set<string> {
    set n | n in names
  }

  lemma {:induction false} ElemSetCardinality(names: seq<string>)
    ensures |ElemSet(names)| <= |names|
    ensures |ElemSet(names)| == |names| <==> Distinct(names)
  {
    if names != [] {
      var rest := names[1..];
      ElemSetCardinality(rest);
      assert ElemSet(names) == ElemSet(rest) + {names[0]} by {
        assert forall n :: n in names <==> n == names[0] || n in rest;
      }
      if names[0] in rest {
        var k :| 0 <= k < |rest| && rest[k] == names[0];
        assert names[0] == names[k + 1];
        assert !Distinct(names);
      } else {
        assert Distinct(names) <==> Distinct(rest) by {
          if Distinct(rest) {
            forall i, j | 0 <= i < j < |names|
              ensures names[i] != names[j]
            {
              if i == 0 {
                assert names[j] == rest[j - 1];
              } else {
                assert names[i] == rest[i - 1] && names[j] == rest[j - 1];
              }
            }
          }
          if Distinct(names) {
            forall i, j | 0 <= i < j < |rest|
              ensures rest[i] != rest[j]
            {
              assert rest[i] == names[i + 1] && rest[j] == names[j + 1];
            }
          }
        }
      }
    }
  }

  /** `_are_filenames_unique`: `len(filenames) == len(set(filenames))`. */
  function AreFilenamesUnique(names: seq<string>): (unique: bool)
    ensures unique <==> Distinct(names)
  {
    ElemSetCardinality(names);
    |names| == |ElemSet(names)|
  }

  /** Python's `<=` on `str`: code points compared one by one, and a proper
      prefix comes first. */
  predicate LexLe(a: string, b: string) {
    a == [] || (b != [] && (a[0] < b[0] || (a[0] == b[0] && LexLe(a[1..], b[1..]))))
  }

  lemma {:induction false} LexLeTotal(a: string, b: string)
    ensures LexLe(a, b) || LexLe(b, a)
  {
    if a != [] && b != [] && a[0] == b[0] {
      LexLeTotal(a[1..], b[1..]);
    }
  }

  lemma {:induction false} LexLeReflexive(a: string)
    ensures LexLe(a, a)
  {
    if a != [] {
      LexLeReflexive(a[1..]);
    }
  }

  lemma {:induction false} LexLeTransitive(a: string, b: string, c: string)
    requires LexLe(a, b) && LexLe(b, c)
    ensures LexLe(a, c)
  {
    if a != [] && a[0] == b[0] && b[0] == c[0] {
      LexLeTransitive(a[1..], b[1..], c[1..]);
    }
  }

  lemma {:induction false} LexLeAntisymmetric(a: string, b: string)
    requires LexLe(a, b) && LexLe(b, a)
    ensures a == b
  {
    if a != [] {
      LexLeAntisymmetric(a[1..], b[1..]);
      assert a == [a[0]] + a[1..] && b == [b[0]] + b[1..];
    }
  }

  /** Ascending in Python's string order. */
  predicate Sorted(names: seq<string>) {
    forall i, j :: 0 <= i < j < |names| ==> LexLe(names[i], names[j])
  }

  /** Inserts `x` into the sorted list `s` at its place. */
  function Insert(x: string, s: seq<string>): (r: seq<string>)
    requires Sorted(s)
    ensures Sorted(r) && multiset(r) == multiset(s) + multiset{x}
  {
    if s == [] then [x]
    else if LexLe(x, s[0]) then
      assert forall j :: 0 <= j < |s| ==> LexLe(x, s[j]) by {
        forall j | 0 <= j < |s| ensures LexLe(x, s[j]) {
          if j > 0 { LexLeTransitive(x, s[0], s[j]); }
        }
      }
      [x] + s
    else
      LexLeTotal(x, s[0]);
      var rest := Insert(x, s[1..]);
      assert s == [s[0]] + s[1..];
      assert forall j :: 0 <= j < |rest| ==> LexLe(s[0], rest[j]) by {
        forall j | 0 <= j < |rest| ensures LexLe(s[0], rest[j]) {
          assert rest[j] in multiset(rest);
          if rest[j] != x {
            assert rest[j] in multiset(s[1..]);
            var k :| 0 <= k < |s[1..]| && s[1..][k] == rest[j];
            assert s[k + 1] == rest[j];
          }
        }
      }
      [s[0]] + rest
  }

  /** `sorted(filenames)`: the names in ascending order. */
  function SortNames(names: seq<string>): (r: seq<string>)
    ensures Sorted(r) && multiset(r) == multiset(names)
  {
    if names == [] then []
    else
      assert names == [names[0]] + names[1..];
      Insert(names[0], SortNames(names[1..]))
  }

  /** There is only one ascending arrangement of a collection of names, so
      the order of the directory listing cannot show through `sorted`. */
  lemma {:induction false} SortedUnique(a: seq<string>, b: seq<string>)
    requires Sorted(a) && Sorted(b) && multiset(a) == multiset(b)
    ensures a == b
  {
    if a != [] {
      assert |b| == |multiset(b)| == |multiset(a)| == |a|;
      SortedHeadIsLeast(a, b[0]);
      SortedHeadIsLeast(b, a[0]);
      LexLeAntisymmetric(a[0], b[0]);
      TailMultiset(a);
      TailMultiset(b);
      SortedUnique(a[1..], b[1..]);
      assert a == [a[0]] + a[1..] && b == [b[0]] + b[1..];
    }
  }

  lemma SortedHeadIsLeast(a: seq<string>, x: string)
    requires Sorted(a) && x in multiset(a)
    ensures LexLe(a[0], x)
  {
    var i :| 0 <= i < |a| && a[i] == x;
    if i == 0 {
      LexLeReflexive(x);
    }
  }

  lemma TailMultiset<T>(a: seq<T>)
    requires a != []
    ensures multiset(a[1..]) == multiset(a) - multiset{a[0]}
  {
    assert a == [a[0]] + a[1..];
  }

  /** `_get_filenames` once the folder is listed: a RuntimeError when a name
      repeats, otherwise the names sorted ascending. */
  function GetFilenames(names: seq<string>): (r: Result<seq<string>, DiscoveryError>)
    ensures r.Failure? <==> !Distinct(names)
    ensures r.Failure? ==> r.error == DuplicateFilenames
    ensures r.Success? ==> Sorted(r.value) && multiset(r.value) == multiset(names)
  {
    if !AreFilenamesUnique(names) then Failure(DuplicateFilenames)
    else Success(SortNames(names))
  }

  predicate AllIn(s: string, chars: set<char>) {
    forall k :: 0 <= k < |s| ==> s[k] in chars
  }

  /** `str.lstrip(chars)` */
  function LStrip(s: string, chars: set<char>): string {
    if s != [] && s[0] in chars then LStrip(s[1..], chars) else s
  }

  /** `str.rstrip(chars)` */
  function RStrip(s: string, chars: set<char>): string {
    if s != [] && s[|s| - 1] in chars then RStrip(s[..|s| - 1], chars) else s
  }

  /** `str.strip(chars)` */
  function Strip(s: string, chars: set<char>): string {
    RStrip(LStrip(s, chars), chars)
  }

  /** `lstrip` drops the longest prefix made of characters of the set. */
  lemma {:induction false} LStripSpec(s: string, chars: set<char>)
    ensures var r := LStrip(s, chars);
      |r| <= |s| && r == s[|s| - |r|..] && AllIn(s[..|s| - |r|], chars) && (r != [] ==> r[0] !in chars)
  {
    if s != [] && s[0] in chars {
      LStripSpec(s[1..], chars);
      var r := LStrip(s, chars);
      assert s[..|s| - |r|] == [s[0]] + s[1..][..|s| - 1 - |r|];
    }
  }

  /** `rstrip` drops the longest suffix made of characters of the set. */
  lemma {:induction false} RStripSpec(s: string, chars: set<char>)
    ensures var r := RStrip(s, chars);
      |r| <= |s| && r == s[..|r|] && AllIn(s[|r|..], chars) && (r != [] ==> r[|r| - 1] !in chars)
  {
    if s != [] && s[|s| - 1] in chars {
      var shorter := s[..|s| - 1];
      RStripSpec(shorter, chars);
      var r := RStrip(s, chars);
      assert s[|r|..] == shorter[|r|..] + [s[|s| - 1]];
    }
  }

  /** `strip` keeps the run of `s` left once characters of the set are
      dropped from both ends: what it drops on either side is made of the
      set, and what it keeps neither starts nor ends with one of them. */
  lemma StripSpec(s: string, chars: set<char>)
    ensures var r := Strip(s, chars);
      |r| <= |s| &&
      (exists i :: 0 <= i <= |s| - |r| && AllIn(s[..i], chars) && s[i..][..|r|] == r && AllIn(s[i..][|r|..], chars)) &&
      (r != [] ==> r[0] !in chars && r[|r| - 1] !in chars)
  {
    var left := LStrip(s, chars);
    var r := RStrip(left, chars);
    LStripSpec(s, chars);
    RStripSpec(left, chars);
    var i := |s| - |left|;
    assert s[i..] == left;
    if r != [] {
      assert r[0] == left[0];
    }
  }

  /** The characters `filename.strip(".py")` removes: a set, not a suffix. */
  const ModuleStripChars: set<char> := {'.', 'p', 'y'}

  /** The relative module name `"." + filename.strip(".py")` passed to
      `import_module`. */
  function ModuleName(filename: string): string {
    "." + Strip(filename, ModuleStripChars)
  }

  /** Dropping trailing characters of the set stops at the first one outside it. */
  lemma {:induction false} RStripAppended(stem: string, tail: string, chars: set<char>)
    requires stem != [] && stem[|stem| - 1] !in chars
    requires forall k :: 0 <= k < |tail| ==> tail[k] in chars
    ensures RStrip(stem + tail, chars) == stem
  {
    if tail != [] {
      var shorter := tail[..|tail| - 1];
      assert (stem + tail)[..|stem + tail| - 1] == stem + shorter;
      RStripAppended(stem, shorter, chars);
    } else {
      assert stem + tail == stem;
    }
  }

  /** Where the stem neither starts nor ends with `.`, `p` or `y`, the strip
      removes exactly the `.py` extension. */
  lemma ModuleNameOfPlainStem(stem: string)
    requires stem != [] && stem[0] !in ModuleStripChars && stem[|stem| - 1] !in ModuleStripChars
    ensures ModuleName(stem + ".py") == "." + stem
  {
    var file := stem + ".py";
    assert LStrip(file, ModuleStripChars) == file;
    RStripAppended(stem, ".py", ModuleStripChars);
  }

  /** Otherwise more is stripped: `copy.py` gives `.co`, not `.copy`. */
  lemma ModuleNameStripsCharacters(file: string)
    requires file == "copy.py"
    ensures ModuleName(file) == ".co"
  {
    var stem, tail := "co", "py.py";
    assert file == stem + tail;
    assert file[0] !in ModuleStripChars;
    RStripAppended(stem, tail, ModuleStripChars);
  }

  lemma ModuleNameExample(file: string)
    requires file == "tit_for_tat.py"
    ensures ModuleName(file) == ".tit_for_tat"
  {
    ModuleNameOfPlainStem("tit_for_tat");
    assert "tit_for_tat" + ".py" == file;
  }
}
