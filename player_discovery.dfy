/** `create_player_class_instance_entire_folder` and
    `create_player_class_instance_from_file` of
    src/player/dynamic_imports.py, with a folder given as the files its
    listing names and the lines of each file, and with the import and the
    instantiation reduced to the module and class they would use. */
module PlayerDiscovery {
  import opened Wrappers
  import opened PlayerClassNames
  import opened PlayerFiles

  /** A file of the folder: its name and its lines, newlines included. */
  datatype SourceFile = SourceFile(name: string, lines: seq<string>)

  /** `path_to_folder`: whether it is a directory, and the files the first
      entry of `os.walk` lists, in listing order. */
  datatype Folder = Folder(isDir: bool, files: seq<SourceFile>)

  /** The instance `class_()` would build: the class `className` looked up
      in the module `moduleName` imported relative to `package`. */
  datatype PlayerInstance = PlayerInstance(package: string, moduleName: string, className: string)

  /** The default `filenames_to_exclude`. */
  const DefaultExclude: set<string> := {"__init__.py", "player.py", "dynamic_imports.py"}

  /** The default `path_to_folder`, as `JoinPath` joins it. */
  const DefaultFolderPath: string := "src/player"

  /** The default `package`. */
  const DefaultPackage: string := "src.player"

  /** The names of the listed files, in listing order. */
  function Names(files: seq<SourceFile>): (names: seq<string>)
    ensures |names| == |files|
  {
    if files == [] then [] else [files[0].name] + Names(files[1..])
  }

  lemma {:induction false} NameAt(files: seq<SourceFile>, i: nat)
    requires i < |files|
    ensures Names(files)[i] == files[i].name
  {
    if i > 0 {
      NameAt(files[1..], i - 1);
    }
  }

  /** The lines read when `path_to_folder / name` is opened: those of the
      first listed file with that name (every name asked for comes from the
      listing, so the empty result for a missing name is never used). */
  function LinesOf(files: seq<SourceFile>, name: string): seq<string>
  {
    if files == [] then []
    else if files[0].name == name then files[0].lines
    else LinesOf(files[1..], name)
  }

  /** With distinct names a name opens the one file that carries it. */
  lemma {:induction false} LinesOfDistinct(files: seq<SourceFile>, i: nat)
    requires i < |files| && Distinct(Names(files))
    ensures LinesOf(files, files[i].name) == files[i].lines
  {
    if i > 0 {
      assert files[0].name != files[i].name by {
        NameAt(files, 0);
        NameAt(files, i);
        assert Names(files)[0] != Names(files)[i];
      }
      assert Distinct(Names(files[1..])) by {
        assert Names(files[1..]) == Names(files)[1..];
      }
      LinesOfDistinct(files[1..], i - 1);
    }
  }

  /** `path_to_folder / file` as a string. */
  function JoinPath(folderPath: string, name: string): (path: string)
    ensures |path| == |folderPath| + 1 + |name| && path[|folderPath|] == '/'
    ensures path[..|folderPath|] == folderPath && path[|folderPath| + 1..] == name
  {
    folderPath + "/" + name
  }

  /** `create_player_class_instance_from_file` for the file `name` with
      lines `lines`: a NameError naming the path when no declaration
      matches, otherwise the module and class to instantiate. */
  function CreatePlayerFromFile(folderPath: string, name: string, lines: seq<string>, package: string)
    : Result<PlayerInstance, DiscoveryError>
  {
    match DeclaredClassName(lines)
    case None => Failure(NoClassFound(JoinPath(folderPath, name)))
    case Some(className) => Success(PlayerInstance(package, ModuleName(name), className))
  }

  /** A file yields a player exactly when one of its lines declares a
      class; the player uses the stripped module name and the name from the
      first such line, and the NameError names the joined path. */
  lemma CreatePlayerFromFileOutcome(folderPath: string, name: string, lines: seq<string>, package: string)
    ensures var r := CreatePlayerFromFile(folderPath, name, lines, package);
      (r.Failure? <==> forall i :: 0 <= i < |lines| ==> MatchClassName(lines[i]).None?) &&
      (r.Failure? ==> r.error == NoClassFound(folderPath + "/" + name)) &&
      (r.Success? ==>
        r.value.package == package && r.value.moduleName == "." + Strip(name, ModuleStripChars) &&
        exists i :: 0 <= i < |lines| && MatchClassName(lines[i]) == Some(r.value.className) &&
          forall j :: 0 <= j < i ==> MatchClassName(lines[j]).None?)
  {
    DeclaredClassNameSpec(lines);
  }

  /** `[file for file in names if file not in exclude]`: every name that is
      not excluded, as often as it is listed, in listing order. */
  function Included(names: seq<string>, exclude: set<string>): (kept: seq<string>)
    ensures forall n :: n in kept <==> n in names && n !in exclude
    ensures forall n :: multiset(kept)[n] == if n in exclude then 0 else multiset(names)[n]
    ensures |kept| <= |names|
  {
    if names == [] then []
    else
      assert names == [names[0]] + names[1..];
      if names[0] in exclude then Included(names[1..], exclude)
      else [names[0]] + Included(names[1..], exclude)
  }

  /** The filter keeps the order of the names: sorted names stay sorted. */
  lemma {:induction false} IncludedSorted(names: seq<string>, exclude: set<string>)
    requires Sorted(names)
    ensures Sorted(Included(names, exclude))
  {
    if names != [] {
      var tail := names[1..];
      assert Sorted(tail) by {
        forall i, j | 0 <= i < j < |tail|
          ensures LexLe(tail[i], tail[j])
        {
          assert tail[i] == names[i + 1] && tail[j] == names[j + 1];
        }
      }
      IncludedSorted(tail, exclude);
      if names[0] !in exclude {
        var rest := Included(tail, exclude);
        forall x | x in rest
          ensures LexLe(names[0], x)
        {
          HeadBelowTail(names, x);
        }
        SortedCons(names[0], rest);
      }
    }
  }

  /** The head of a sorted list is below every later entry. */
  lemma HeadBelowTail(names: seq<string>, x: string)
    requires Sorted(names) && names != [] && x in names[1..]
    ensures LexLe(names[0], x)
  {
    var k :| 0 <= k < |names[1..]| && names[1..][k] == x;
    assert names[k + 1] == x;
  }

  /** A name below every entry of a sorted list may go in front of it. */
  lemma SortedCons(x: string, s: seq<string>)
    requires Sorted(s) && forall y :: y in s ==> LexLe(x, y)
    ensures Sorted([x] + s)
  {
    var t := [x] + s;
    forall i, j | 0 <= i < j < |t|
      ensures LexLe(t[i], t[j])
    {
      assert t[j] == s[j - 1];
      if i > 0 {
        assert t[i] == s[i - 1];
      }
    }
  }

  /** A file of the folder that is scanned and has a declaration. */
  predicate Declares(files: seq<SourceFile>, name: string)
  {
    DeclaredClassName(LinesOf(files, name)).Some?
  }

  /** The player built from a file known to declare a class. */
  function PlayerOf(files: seq<SourceFile>, name: string, package: string): PlayerInstance
    requires Declares(files, name)
  {
    PlayerInstance(package, ModuleName(name), DeclaredClassName(LinesOf(files, name)).value)
  }

  /** The list comprehension of `create_player_class_instance_entire_folder`
      over the sorted names, evaluated in order: an excluded name is skipped
      without its file being opened, and the first file without a
      declaration aborts the whole list with its NameError. */
  function InstantiateEach(folderPath: string, files: seq<SourceFile>, names: seq<string>,
                           exclude: set<string>, package: string)
    : (r: Result<seq<PlayerInstance>, DiscoveryError>)
    ensures r.Success? ==> |r.value| == |Included(names, exclude)|
  {
    if names == [] then Success([])
    else if names[0] in exclude then InstantiateEach(folderPath, files, names[1..], exclude, package)
    else
      match CreatePlayerFromFile(folderPath, names[0], LinesOf(files, names[0]), package)
      case Failure(e) => Failure(e)
      case Success(player) =>
        match InstantiateEach(folderPath, files, names[1..], exclude, package)
        case Failure(e) => Failure(e)
        case Success(players) => Success([player] + players)
  }

  /** The comprehension succeeds exactly when every file it does not exclude
      declares a player class. */
  lemma {:induction false} InstantiateEachSucceeds(folderPath: string, files: seq<SourceFile>,
                                                   names: seq<string>, exclude: set<string>, package: string)
    ensures InstantiateEach(folderPath, files, names, exclude, package).Success? <==>
      forall n :: n in Included(names, exclude) ==> Declares(files, n)
  {
    if names != [] {
      InstantiateEachSucceeds(folderPath, files, names[1..], exclude, package);
      if names[0] !in exclude {
        assert Included(names, exclude) == [names[0]] + Included(names[1..], exclude);
      }
    }
  }

  /** On success: one player per file not excluded, in the order of `names`,
      built from that file's module name and declared class. */
  lemma {:induction false} InstantiateEachPlayers(folderPath: string, files: seq<SourceFile>,
                                                  names: seq<string>, exclude: set<string>, package: string)
    requires InstantiateEach(folderPath, files, names, exclude, package).Success?
    ensures var players := InstantiateEach(folderPath, files, names, exclude, package).value;
      var kept := Included(names, exclude);
      |players| == |kept| &&
      forall k :: 0 <= k < |kept| ==> Declares(files, kept[k]) && players[k] == PlayerOf(files, kept[k], package)
  {
    if names != [] {
      InstantiateEachPlayers(folderPath, files, names[1..], exclude, package);
      if names[0] !in exclude {
        var players := InstantiateEach(folderPath, files, names, exclude, package).value;
        var rest := InstantiateEach(folderPath, files, names[1..], exclude, package).value;
        var kept := Included(names, exclude);
        var keptRest := Included(names[1..], exclude);
        assert kept == [names[0]] + keptRest;
        assert Declares(files, names[0]);
        assert players == [PlayerOf(files, names[0], package)] + rest;
        forall k | 0 <= k < |kept|
          ensures Declares(files, kept[k]) && players[k] == PlayerOf(files, kept[k], package)
        {
          if k > 0 {
            assert kept[k] == keptRest[k - 1] && players[k] == rest[k - 1];
          }
        }
      }
    }
  }

  /** `kept[k]` is the first name of `kept` whose file declares no class. */
  predicate FirstUndeclared(files: seq<SourceFile>, kept: seq<string>, k: nat) {
    k < |kept| && !Declares(files, kept[k]) && forall j :: 0 <= j < k ==> Declares(files, kept[j])
  }

  lemma FirstUndeclaredCons(files: seq<SourceFile>, name: string, rest: seq<string>, k: nat)
    requires Declares(files, name) && FirstUndeclared(files, rest, k)
    ensures FirstUndeclared(files, [name] + rest, k + 1)
  {
    var kept := [name] + rest;
    forall j | 0 <= j < k + 1
      ensures Declares(files, kept[j])
    {
      if j > 0 {
        assert kept[j] == rest[j - 1];
      }
    }
  }

  /** On failure: the NameError of the first file, among those not
      excluded, that declares no player class. */
  lemma {:induction false} InstantiateEachFails(folderPath: string, files: seq<SourceFile>,
                                                names: seq<string>, exclude: set<string>, package: string)
    requires InstantiateEach(folderPath, files, names, exclude, package).Failure?
    ensures exists k: nat :: (FirstUndeclared(files, Included(names, exclude), k) &&
      InstantiateEach(folderPath, files, names, exclude, package).error ==
      NoClassFound(JoinPath(folderPath, Included(names, exclude)[k])))
  {
    var r := InstantiateEach(folderPath, files, names, exclude, package);
    var kept := Included(names, exclude);
    if names[0] in exclude {
      assert kept == Included(names[1..], exclude);
      assert r == InstantiateEach(folderPath, files, names[1..], exclude, package);
      InstantiateEachFails(folderPath, files, names[1..], exclude, package);
      var k: nat :| FirstUndeclared(files, kept, k) && r.error == NoClassFound(JoinPath(folderPath, kept[k]));
    } else {
      assert kept == [names[0]] + Included(names[1..], exclude);
      if Declares(files, names[0]) {
        InstantiateEachFails(folderPath, files, names[1..], exclude, package);
        var rest := Included(names[1..], exclude);
        var k: nat :| FirstUndeclared(files, rest, k) && r.error == NoClassFound(JoinPath(folderPath, rest[k]));
        FirstUndeclaredCons(files, names[0], rest, k);
        assert kept[k + 1] == rest[k];
      } else {
        assert FirstUndeclared(files, kept, 0);
      }
    }
  }

  /** `create_player_class_instance_entire_folder(path_to_folder,
      filenames_to_exclude, package)`. */
  function CreatePlayersFromFolder(folderPath: string, folder: Folder, exclude: set<string>, package: string)
    : (r: Result<seq<PlayerInstance>, DiscoveryError>)
    ensures !folder.isDir ==> r == Success([])
    ensures folder.isDir && !Distinct(Names(folder.files)) ==> r == Failure(DuplicateFilenames)
    ensures folder.isDir && Distinct(Names(folder.files)) ==>
      r == InstantiateEach(folderPath, folder.files, SortNames(Names(folder.files)), exclude, package)
  {
    if !folder.isDir then Success([])
    else
      match GetFilenames(Names(folder.files))
      case Failure(e) => Failure(e)
      case Success(sorted) =>
        assert sorted == SortNames(Names(folder.files)) by {
          SortedUnique(sorted, SortNames(Names(folder.files)));
        }
        InstantiateEach(folderPath, folder.files, sorted, exclude, package)
  }

  /** The call with all three defaults; `folder` is what `src/player/` holds. */
  function CreatePlayersWithDefaults(folder: Folder): Result<seq<PlayerInstance>, DiscoveryError>
  {
    CreatePlayersFromFolder(DefaultFolderPath, folder, DefaultExclude, DefaultPackage)
  }

  /** The outcome of a whole folder: a folder succeeds exactly when it is no
      directory, or its names are distinct and every file not excluded
      declares a class; then the players are those files' players in
      sorted name order. The names kept are sorted, and each listed name
      that is not excluded is kept exactly once. */
  lemma FolderOutcome(folderPath: string, folder: Folder, exclude: set<string>, package: string)
    ensures var r := CreatePlayersFromFolder(folderPath, folder, exclude, package);
      var kept := Included(SortNames(Names(folder.files)), exclude);
      (r.Success? <==>
        (!folder.isDir || (Distinct(Names(folder.files)) && forall n :: n in kept ==> Declares(folder.files, n)))) &&
      (r.Success? && folder.isDir ==>
        |r.value| == |kept| &&
        forall k :: 0 <= k < |kept| ==>
          (Declares(folder.files, kept[k]) && r.value[k] == PlayerOf(folder.files, kept[k], package)))
    ensures var kept := Included(SortNames(Names(folder.files)), exclude);
      Distinct(Names(folder.files)) ==>
        Sorted(kept) &&
        forall n :: multiset(kept)[n] == if n in Names(folder.files) && n !in exclude then 1 else 0
  {
    var sorted := SortNames(Names(folder.files));
    IncludedSorted(sorted, exclude);
    if Distinct(Names(folder.files)) {
      DistinctOnce(Names(folder.files));
    }
    InstantiateEachSucceeds(folderPath, folder.files, sorted, exclude, package);
    if InstantiateEach(folderPath, folder.files, sorted, exclude, package).Success? {
      InstantiateEachPlayers(folderPath, folder.files, sorted, exclude, package);
    }
  }

  /** Each name of a list without repeats occurs exactly once. */
  lemma DistinctOnce(names: seq<string>)
    requires Distinct(names)
    ensures forall n :: multiset(names)[n] == if n in names then 1 else 0
  {
    DistinctMultiplicity(names);
  }

  /** Two listings that agree on the lines of every file not excluded open
      the same files: `InstantiateEach` never reads an excluded file. */
  lemma {:induction false} InstantiateEachReadsIncluded(folderPath: string, a: seq<SourceFile>, b: seq<SourceFile>,
                                                        names: seq<string>, exclude: set<string>, package: string)
    requires forall n :: n in names && n !in exclude ==> LinesOf(a, n) == LinesOf(b, n)
    ensures InstantiateEach(folderPath, a, names, exclude, package) ==
            InstantiateEach(folderPath, b, names, exclude, package)
  {
    if names != [] {
      InstantiateEachReadsIncluded(folderPath, a, b, names[1..], exclude, package);
      if names[0] !in exclude {
        assert LinesOf(a, names[0]) == LinesOf(b, names[0]);
      }
    }
  }

  /** With the same names, files at the same place read the same. */
  lemma {:induction false} LinesOfSameNames(a: seq<SourceFile>, b: seq<SourceFile>, name: string)
    requires Names(a) == Names(b)
    requires forall i :: 0 <= i < |a| && a[i].name == name ==> a[i].lines == b[i].lines
    ensures LinesOf(a, name) == LinesOf(b, name)
  {
    if a != [] {
      NameAt(a, 0);
      NameAt(b, 0);
      if a[0].name != name {
        assert Names(a)[1..] == Names(a[1..]) && Names(b)[1..] == Names(b[1..]);
        LinesOfSameNames(a[1..], b[1..], name);
      }
    }
  }

  /** A file listed under `filenames_to_exclude` is never opened: the folder
      gives the same result whatever an excluded file holds, even when it
      declares no class. */
  lemma ExcludedFilesNotScanned(folderPath: string, a: Folder, b: Folder, exclude: set<string>, package: string)
    requires a.isDir == b.isDir && Names(a.files) == Names(b.files)
    requires forall i :: 0 <= i < |a.files| && a.files[i].name !in exclude ==> a.files[i].lines == b.files[i].lines
    ensures CreatePlayersFromFolder(folderPath, a, exclude, package) ==
            CreatePlayersFromFolder(folderPath, b, exclude, package)
  {
    if a.isDir && Distinct(Names(a.files)) {
      var sorted := SortNames(Names(a.files));
      forall n | n in sorted && n !in exclude
        ensures LinesOf(a.files, n) == LinesOf(b.files, n)
      {
        LinesOfSameNames(a.files, b.files, n);
      }
      InstantiateEachReadsIncluded(folderPath, a.files, b.files, sorted, exclude, package);
    }
  }

  /** Names of a concatenation. */
  lemma {:induction false} NamesAppend(x: seq<SourceFile>, y: seq<SourceFile>)
    ensures Names(x + y) == Names(x) + Names(y)
  {
    if x == [] {
      assert x + y == y;
    } else {
      assert (x + y)[1..] == x[1..] + y;
      NamesAppend(x[1..], y);
    }
  }

  /** Removing the file at `i` from a listing. */
  lemma RemoveAt(b: seq<SourceFile>, i: nat)
    requires i < |b|
    ensures multiset(b[..i] + b[i + 1..]) == multiset(b) - multiset{b[i]}
  {
    assert b == b[..i] + [b[i]] + b[i + 1..];
  }

  /** The names around position `i` of a listing. */
  lemma {:induction false} NamesSplitAt(b: seq<SourceFile>, i: nat)
    requires i < |b|
    ensures Names(b) == Names(b[..i]) + [b[i].name] + Names(b[i + 1..])
  {
    if i > 0 {
      NamesSplitAt(b[1..], i - 1);
      assert b[1..][..i - 1] == b[..i][1..];
      assert b[1..][i..] == b[i + 1..];
    }
  }

  /** The names left once the file at `i` is removed. */
  lemma RemoveAtNames(b: seq<SourceFile>, i: nat)
    requires i < |b|
    ensures multiset(Names(b)) == multiset(Names(b[..i] + b[i + 1..])) + multiset{b[i].name}
  {
    var left, right := b[..i], b[i + 1..];
    NamesSplitAt(b, i);
    NamesAppend(left, right);
  }

  /** Permuting the listing permutes the names. */
  lemma {:induction false} NamesPermutation(a: seq<SourceFile>, b: seq<SourceFile>)
    requires multiset(a) == multiset(b)
    ensures multiset(Names(a)) == multiset(Names(b))
  {
    if a != [] {
      assert a[0] in multiset(b);
      var i :| 0 <= i < |b| && b[i] == a[0];
      var others := b[..i] + b[i + 1..];
      assert multiset(a[1..]) == multiset(others) by {
        RemoveAt(b, i);
        TailMultiset(a);
      }
      NamesPermutation(a[1..], others);
      assert multiset(Names(a)) == multiset(Names(a[1..])) + multiset{a[0].name} by {
        assert Names(a) == [a[0].name] + Names(a[1..]);
      }
      RemoveAtNames(b, i);
    }
  }

  /** Distinctness is the absence of a repeated element. */
  lemma {:induction false} DistinctMultiplicity(names: seq<string>)
    ensures Distinct(names) <==> forall n :: multiset(names)[n] <= 1
  {
    if names != [] {
      var tail := names[1..];
      assert names == [names[0]] + tail;
      DistinctMultiplicity(tail);
      if Distinct(names) {
        assert Distinct(tail) by {
          forall i, j | 0 <= i < j < |tail|
            ensures tail[i] != tail[j]
          {
            assert tail[i] == names[i + 1] && tail[j] == names[j + 1];
          }
        }
        assert names[0] !in tail;
      } else {
        var i, j :| 0 <= i < j < |names| && names[i] == names[j];
        if i == 0 {
          assert names[j] in tail;
          assert multiset(names)[names[0]] >= 2;
        } else {
          assert tail[i - 1] == tail[j - 1];
          assert !Distinct(tail);
          var n :| multiset(tail)[n] > 1;
          assert multiset(names)[n] > 1;
        }
      }
    }
  }

  /** `os.walk` may list a folder in any order: the players, their order and
      every error depend only on which files the folder holds. */
  lemma ListingOrderIrrelevant(folderPath: string, a: Folder, b: Folder, exclude: set<string>, package: string)
    requires a.isDir == b.isDir && multiset(a.files) == multiset(b.files)
    ensures CreatePlayersFromFolder(folderPath, a, exclude, package) ==
            CreatePlayersFromFolder(folderPath, b, exclude, package)
  {
    if a.isDir {
      NamesPermutation(a.files, b.files);
      DistinctMultiplicity(Names(a.files));
      DistinctMultiplicity(Names(b.files));
      if Distinct(Names(a.files)) {
        var sorted := SortNames(Names(a.files));
        SortedUnique(sorted, SortNames(Names(b.files)));
        forall n | n in sorted && n !in exclude
          ensures LinesOf(a.files, n) == LinesOf(b.files, n)
        {
          SameLinesInPermutation(a.files, b.files, n);
        }
        InstantiateEachReadsIncluded(folderPath, a.files, b.files, sorted, exclude, package);
      }
    }
  }

  /** With distinct names, a listed name reads the same lines in any
      permutation of the listing. */
  lemma SameLinesInPermutation(a: seq<SourceFile>, b: seq<SourceFile>, name: string)
    requires multiset(a) == multiset(b) && Distinct(Names(a)) && Distinct(Names(b))
    requires name in multiset(Names(a))
    ensures LinesOf(a, name) == LinesOf(b, name)
  {
    var i :| 0 <= i < |Names(a)| && Names(a)[i] == name;
    NameAt(a, i);
    LinesOfDistinct(a, i);
    assert a[i] in multiset(b);
    var j :| 0 <= j < |b| && b[j] == a[i];
    LinesOfDistinct(b, j);
  }

  /** An excluded first name is skipped. */
  lemma InstantiateEachSkip(folderPath: string, files: seq<SourceFile>, names: seq<string>,
                            exclude: set<string>, package: string)
    requires names != [] && names[0] in exclude
    ensures InstantiateEach(folderPath, files, names, exclude, package) ==
            InstantiateEach(folderPath, files, names[1..], exclude, package)
  {
  }

  /** One name not excluded: the list of its one player. */
  lemma InstantiateEachSingle(folderPath: string, files: seq<SourceFile>, name: string,
                              exclude: set<string>, package: string, player: PlayerInstance)
    requires name !in exclude
    requires CreatePlayerFromFile(folderPath, name, LinesOf(files, name), package) == Success(player)
    ensures InstantiateEach(folderPath, files, [name], exclude, package) == Success([player])
  {
    var names := [name];
    assert names[0] == name && names[1..] == [];
    assert InstantiateEach(folderPath, files, names[1..], exclude, package) == Success([]);
    assert [player] + [] == [player];
  }

  /** Two distinct names listed out of order are swapped by the sort. */
  lemma SortTwo(first: string, second: string)
    requires LexLe(first, second) && first != second
    ensures Distinct([second, first]) && SortNames([second, first]) == [first, second]
  {
    LexLeNotBoth(first, second);
    var listed := [second, first];
    assert listed[1..] == [first] && [first][1..] == [];
    assert SortNames([first]) == [first];
    assert Insert(second, [first]) == [first] + Insert(second, []);
  }

  lemma LexLeNotBoth(first: string, second: string)
    requires LexLe(first, second) && first != second
    ensures !LexLe(second, first)
  {
    if LexLe(second, first) {
      LexLeAntisymmetric(first, second);
    }
  }

  /** The file `tit_for_tat.py` declaring `TitForTat`, alone, gives its player. */
  lemma TitForTatPlayer(files: seq<SourceFile>, strategy: string, line: string)
    requires strategy == "tit_for_tat.py" && line == "class TitForTat(Player):\n"
    requires LinesOf(files, strategy) == [line]
    ensures InstantiateEach(DefaultFolderPath, files, [strategy], DefaultExclude, DefaultPackage) ==
            Success([PlayerInstance(DefaultPackage, ".tit_for_tat", "TitForTat")])
  {
    var player := PlayerInstance(DefaultPackage, ".tit_for_tat", "TitForTat");
    assert DeclaredClassName([line]) == Some("TitForTat") by {
      MatchExample(line);
    }
    ModuleNameExample(strategy);
    assert strategy !in DefaultExclude;
    InstantiateEachSingle(DefaultFolderPath, files, strategy, DefaultExclude, DefaultPackage, player);
  }

  /** A folder holding one strategy and the package's `__init__.py`: with
      the defaults the init file is excluded and the strategy becomes the
      one player. */
  lemma DefaultFolderExample(folder: Folder, strategy: string, init: string, line: string)
    requires strategy == "tit_for_tat.py" && init == "__init__.py" && line == "class TitForTat(Player):\n"
    requires folder == Folder(true, [SourceFile(strategy, [line]), SourceFile(init, [])])
    ensures CreatePlayersWithDefaults(folder) == Success([PlayerInstance(DefaultPackage, ".tit_for_tat", "TitForTat")])
  {
    var names := Names(folder.files);
    assert names == [strategy] + Names([SourceFile(init, [])]) == [strategy, init];
    assert LexLe(init, strategy) && init != strategy by {
      assert init[0] == '_' && strategy[0] == 't';
    }
    SortTwo(init, strategy);
    assert LinesOf(folder.files, strategy) == [line];
    TitForTatPlayer(folder.files, strategy, line);
    InstantiateEachSkip(DefaultFolderPath, folder.files, [init, strategy], DefaultExclude, DefaultPackage);
  }
}
