# game-theory: payoff matrices and player discovery in Dafny

This project models two parts of the `game-theory` Python repository.

- `src/game/game.py` turns a parsed game description into a frozen `Game` record:
  - the row player's payoff matrix is frozen as given;
  - the column player's matrix is derived by transposing the first two axes with `zip`, then reversing every payoff list in place;
  - `symmetric` is structural equality of the two views.
- `src/player/dynamic_imports.py` discovers player classes in a folder:
  - it lists the folder, rejects duplicate names and sorts the rest;
  - it skips excluded files;
  - it finds in each remaining file the first line matching `class\s*(?P<class_name>.+?)\s*\(Player\)`;
  - it imports the module `"." + filename.strip(".py")` and instantiates that class.

Files:

- `wrappers.dfy`: `Option` and `Result`.
- `payoff_matrices.dfy` (module `PayoffMatrices`): the pure side of `game.py`.
  - `Transpose` has `zip` semantics: it truncates to the shortest row and gives `[]` when there is no row.
  - `ReverseCells`, `ColumnView` and the `Game` record built by `MakeGame`.
  - The involution of the column view, and the link between symmetry and mirrored square matrices.
- `game_factory.dfy` (module `GameFactories`): the heap side of `game.py`.
  - Every payoff list of the parsed description is an `array<int>` (a cell). The rows are sequences of those cells, because no row list is ever mutated.
  - `Transpose` of a cell matrix holds the very same cell objects. This is what `zip` does with the inner lists.
  - So `InvertRowColPayoffsOrder` also reverses the cells of the parsed description. The class `GameFactoryFromJson` states that effect outright.
  - It also proves that `CreateGame` still reports the matrix as parsed, because it freezes `payoff_row` first.
- `player_class_names.dfy` (module `PlayerClassNames`): a hand-written matcher for the one fixed pattern.
  - The match is anchored at the start of the line.
  - The greedy `\s*` gives back whitespace from the longest run down.
  - The lazy name takes the shortest candidate for each whitespace length.
  - `GetPlayerClassName` scans the lines with an early return.
- `player_files.dfy` (module `PlayerFiles`): `_are_filenames_unique`, Python's string order and `sorted`, `_get_filenames`, and `str.strip` with a character set (the module name).
- `player_discovery.dfy` (module `PlayerDiscovery`): `create_player_class_instance_from_file` and `create_player_class_instance_entire_folder`.
  - A folder is a directory flag plus the files its listing names, each with its lines.

## Model

| member | source | states |
|---|---|---|
| PayoffMatrices.Reverse | src/game/game.py:87 | `list.reverse()` as a value: same length, entry `k` is entry `len-1-k` of the input |
| PayoffMatrices.ReverseReverse | src/game/game.py:87 | reversing a payoff list twice restores it |
| PayoffMatrices.MinLen | src/game/game.py:48 | the number of tuples `zip(*m)` draws: at most every row length, equal to some row length, 0 without rows |
| PayoffMatrices.MinLenRectangular | src/game/game.py:48 | for a non-empty matrix whose rows all have `cols` entries, `zip` draws exactly `cols` tuples |
| PayoffMatrices.Transpose | src/game/game.py:42-48 | `transpose_list_of_lists`: `MinLen(m)` rows of `len(m)` entries with `t[c][r] == m[r][c]`; truncates jagged input and raises nothing |
| PayoffMatrices.TransposeRectangular | src/game/game.py:42-48 | an R x C input with R > 0 gives C rows of R entries; no row gives `[]` |
| PayoffMatrices.ReverseCells | src/game/game.py:63-87 | every payoff list reversed, with row count and per-row cell count unchanged |
| PayoffMatrices.InvertExample | src/game/game.py:68-81 | the docstring example of `__invert_row_col_payoffs_order` |
| PayoffMatrices.ColumnView | src/game/game.py:90-118 | the column player's matrix: `col[c][r] == reverse(row[r][c])`, `MinLen` rows of `len(row)` entries |
| PayoffMatrices.ColumnViewShape | src/game/game.py:114-118 | an R x C matrix with R > 0 has a C x R column view; with no column the view is empty |
| PayoffMatrices.ColumnViewInvolution | src/game/game.py:114-118 | deriving the column view twice from a rectangular matrix with a column gives the matrix back |
| PayoffMatrices.ColumnViewTwiceRow | src/game/game.py:114-118 | the same, one row at a time |
| PayoffMatrices.ColumnViewInvolutionNeedsAColumn | src/game/game.py:48 | without a column the round trip loses the rows: `[[]]` comes back as `[]` |
| PayoffMatrices.ColumnViewTruncatesJagged | src/game/game.py:48 | a jagged matrix comes back cut to its shortest row, and no error is raised |
| PayoffMatrices.ColumnViewOfSquare | src/game/game.py:114-118 | the column view of any 2 x 2 matrix, entry by entry |
| PayoffMatrices.ColumnViewOfJagged | src/game/game.py:48 | the column view of a matrix whose second row is one entry short keeps only the first column |
| PayoffMatrices.ColumnViewOfRow | src/game/game.py:114-118 | the column view of a single row of two entries |
| PayoffMatrices.ConvertExample | src/game/game.py:96-111 | the docstring example of `_convert_payoff_row_to_col` |
| PayoffMatrices.MakeGame | src/game/game.py:121-139 | the record `create_game` returns: `id` and `type` copied, `payoff_col` is the column view of `payoff_row`, `symmetric` iff the two are equal |
| PayoffMatrices.SymmetricIff | src/game/game.py:136 | a game is symmetric exactly when its matrix is square and every payoff list is the reverse of the one at the mirrored position |
| PayoffMatrices.SymmetricIsMirrored | src/game/game.py:136 | a matrix equal to its column view is mirrored |
| PayoffMatrices.MirroredIsSymmetric | src/game/game.py:136 | a mirrored matrix equals its column view |
| PayoffMatrices.SymmetricImpliesSquare | src/game/game.py:127-136 | a symmetric game has as many column actions as row actions in every row |
| PayoffMatrices.AsymmetricExample | src/game/game.py:136 | the invert docstring matrix gives an asymmetric game |
| PayoffMatrices.SymmetricExample | src/game/game.py:136 | the prisoner's dilemma gives a symmetric game |
| GameFactories.FreezeRow | src/game/game.py:28-39 | one row of payoff lists frozen: same length, same payoffs at every index |
| GameFactories.Freeze | src/game/game.py:28-39 | `nested_list_to_nested_tuple`: same length at every level and the same payoffs at every index path |
| GameFactories.TransposeShares | src/game/game.py:48 | the transposed rows hold only cells of the first `MinLen` columns of the description, with no cell repeated |
| GameFactories.ColumnViewOfReversedCells | src/game/game.py:114-118 | once those shared cells are reversed, freezing the transpose gives the column view of the matrix as it was |
| GameFactories.ReverseCell | src/game/game.py:87 | `payoffs.reverse()` in place on one payoff list |
| GameFactories.ReverseRow | src/game/game.py:86-87 | the inner loop: every payoff list of one row reversed in place |
| GameFactories.GameFactoryFromJson.constructor | src/game/game.py:53-60 | holds an already parsed description with `id`, `type` and the payoff cells |
| GameFactories.GameFactoryFromJson.InvertRowColPayoffsOrder | src/game/game.py:63-87 | every payoff list of the argument reversed in place; only those cells change |
| GameFactories.GameFactoryFromJson.ConvertPayoffRowToCol | src/game/game.py:90-118 | returns the column view of the matrix as it was, and leaves the first `MinLen` columns of the stored description reversed through the shared cells |
| GameFactories.GameFactoryFromJson.CreateGame | src/game/game.py:121-139 | the returned record describes the matrix as parsed, because `payoff_row` is frozen before the conversion; the stored cells end up reversed |
| GameFactories.CreateGameTwice | src/game/game.py:127-131 | a second `create_game` on the same rectangular description reports every payoff list reversed |
| GameFactories.FrozenAfterReversal | src/game/game.py:127-131 | on a rectangular matrix with a column, the conversion has reversed every cell |
| PlayerClassNames.SearchName | src/player/dynamic_imports.py:26 | the lazy `.+?` as a search over name lengths; its contract is `SearchNameSpec` |
| PlayerClassNames.SearchNameSpec | src/player/dynamic_imports.py:26 | the lazy `.+?`: the search returns the shortest matching name length from `n` on, or reports there is none |
| PlayerClassNames.SearchSpace | src/player/dynamic_imports.py:26 | backtracking of the greedy `\s*` from the longest run down; its contract is `SearchSpaceSpec` |
| PlayerClassNames.SearchSpaceSpec | src/player/dynamic_imports.py:26 | backtracking of the greedy `\s*`: the largest whitespace length that admits a match, with its shortest name, or none at all |
| PlayerClassNames.SpaceRun | src/player/dynamic_imports.py:26 | the whitespace run the greedy `\s*` first takes; its contract is `SpaceRunSpec` |
| PlayerClassNames.SpaceRunSpec | src/player/dynamic_imports.py:26 | the greedy `\s*` first takes the whole whitespace run |
| PlayerClassNames.FindMatch | src/player/dynamic_imports.py:26-31 | where `re.match` finds the pattern; its contract is `FindMatchSpec` |
| PlayerClassNames.FindMatchSpec | src/player/dynamic_imports.py:26-31 | `re.match` finds a match exactly when there is one, and then the one Python's backtracking order prefers |
| PlayerClassNames.MatchClassName | src/player/dynamic_imports.py:31-34 | the `class_name` group of one line, if it matches; its contract is `MatchClassNameSpec`, with `MatchClassNameOf` and `NameIsTrimmed` |
| PlayerClassNames.MatchClassNameSpec | src/player/dynamic_imports.py:31-34 | a line yields a name exactly when it matches, and the name is the `class_name` group of the preferred match |
| PlayerClassNames.PreferredMatchUnique | src/player/dynamic_imports.py:26-31 | the preferred match is unique |
| PlayerClassNames.MatchClassNameOf | src/player/dynamic_imports.py:31-34 | the group of a preferred match is what the line yields |
| PlayerClassNames.NameIsTrimmed | src/player/dynamic_imports.py:26 | a reported name of two or more characters neither starts nor ends with whitespace |
| PlayerClassNames.IndentedLineNeverMatches | src/player/dynamic_imports.py:31 | `re.match` is anchored, so an indented declaration is not found |
| PlayerClassNames.MatchExample | src/player/dynamic_imports.py:21-23 | `class TitForTat(Player):` yields `TitForTat` |
| PlayerClassNames.MatchBacktrackExample | src/player/dynamic_imports.py:26 | `class (Player)` yields a single space: `\s*` gives the space back to the name |
| PlayerClassNames.DeclaredClassName | src/player/dynamic_imports.py:30-36 | the name from the first matching line; its contract is `DeclaredClassNameSpec` |
| PlayerClassNames.DeclaredClassNameSpec | src/player/dynamic_imports.py:30-36 | the name comes from the first matching line in file order; there is none exactly when no line matches |
| PlayerClassNames.GetPlayerClassName | src/player/dynamic_imports.py:16-36 | `_get_player_class_name`: the first matching line's name, or a NameError naming the path when no line matches |
| PlayerFiles.ElemSetCardinality | src/player/dynamic_imports.py:73 | `len(set(names)) <= len(names)`, with equality exactly when no name repeats |
| PlayerFiles.AreFilenamesUnique | src/player/dynamic_imports.py:72-73 | true iff no file name occurs twice |
| PlayerFiles.LexLeTotal | src/player/dynamic_imports.py:83 | Python's string order is total |
| PlayerFiles.LexLeTransitive | src/player/dynamic_imports.py:83 | Python's string order is transitive |
| PlayerFiles.LexLeAntisymmetric | src/player/dynamic_imports.py:83 | Python's string order is antisymmetric |
| PlayerFiles.Insert | src/player/dynamic_imports.py:83 | inserting into a sorted list keeps it sorted and adds exactly that name |
| PlayerFiles.SortNames | src/player/dynamic_imports.py:83 | `sorted`: ascending, and a permutation of the input |
| PlayerFiles.SortedUnique | src/player/dynamic_imports.py:83 | only one ascending arrangement of the same names exists |
| PlayerFiles.GetFilenames | src/player/dynamic_imports.py:76-85 | `_get_filenames`: RuntimeError exactly when a name repeats, otherwise the names sorted ascending |
| PlayerFiles.LStrip | src/player/dynamic_imports.py:44 | `str.lstrip(chars)`; its contract is `LStripSpec` |
| PlayerFiles.RStrip | src/player/dynamic_imports.py:44 | `str.rstrip(chars)`; its contract is `RStripSpec` |
| PlayerFiles.Strip | src/player/dynamic_imports.py:44 | `str.strip(chars)`; its contract is `StripSpec` |
| PlayerFiles.ModuleName | src/player/dynamic_imports.py:43-45 | `"." + filename.strip(".py")`; its contract is `StripSpec`, with `ModuleNameOfPlainStem` and `ModuleNameStripsCharacters` |
| PlayerFiles.LStripSpec | src/player/dynamic_imports.py:44 | `lstrip` drops the longest prefix made of characters of the set |
| PlayerFiles.RStripSpec | src/player/dynamic_imports.py:44 | `rstrip` drops the longest suffix made of characters of the set |
| PlayerFiles.StripSpec | src/player/dynamic_imports.py:44 | `strip` keeps a middle run of the input; what it drops on each side is made of the set, and what it keeps neither starts nor ends with one of those characters |
| PlayerFiles.RStripAppended | src/player/dynamic_imports.py:44 | trailing characters of the set are dropped up to the first character outside it |
| PlayerFiles.ModuleNameOfPlainStem | src/player/dynamic_imports.py:43-45 | a stem that neither starts nor ends with `.`, `p` or `y` gives the module name `"." + stem` |
| PlayerFiles.ModuleNameStripsCharacters | src/player/dynamic_imports.py:43-45 | `copy.py` gives `.co`, not `.copy` |
| PlayerFiles.ModuleNameExample | src/player/dynamic_imports.py:43-45 | `tit_for_tat.py` gives `.tit_for_tat` |
| PlayerDiscovery.Names | src/player/dynamic_imports.py:78 | the listed names: one per listed file |
| PlayerDiscovery.LinesOf | src/player/dynamic_imports.py:28-30 | the lines read when a listed file is opened; its contract is `LinesOfDistinct` |
| PlayerDiscovery.LinesOfDistinct | src/player/dynamic_imports.py:28-30 | with distinct names, opening a name reads the one file that carries it |
| PlayerDiscovery.JoinPath | src/player/dynamic_imports.py:115 | `path_to_folder / file`: the path splits back into the folder path and the file name, around one `/` |
| PlayerDiscovery.CreatePlayerFromFile | src/player/dynamic_imports.py:51-69 | `create_player_class_instance_from_file`; its contract is `CreatePlayerFromFileOutcome` |
| PlayerDiscovery.CreatePlayerFromFileOutcome | src/player/dynamic_imports.py:51-69 | a file yields a player exactly when one of its lines declares a class; the player uses the stripped module name, the package and the first declared name; otherwise a NameError names the joined path |
| PlayerDiscovery.Included | src/player/dynamic_imports.py:114-118 | the exclusion filter: a name is kept exactly when it is listed and not excluded, as many times as it is listed |
| PlayerDiscovery.IncludedSorted | src/player/dynamic_imports.py:114-118 | the filter keeps the order of the names: a sorted list stays sorted |
| PlayerDiscovery.DistinctOnce | src/player/dynamic_imports.py:80-83 | in a list without repeats every listed name occurs exactly once |
| PlayerDiscovery.InstantiateEach | src/player/dynamic_imports.py:114-118 | on success, one player per name that is not excluded |
| PlayerDiscovery.InstantiateEachSucceeds | src/player/dynamic_imports.py:114-118 | the comprehension succeeds exactly when every file that is not excluded declares a class |
| PlayerDiscovery.InstantiateEachPlayers | src/player/dynamic_imports.py:114-118 | on success, the players of the files that are not excluded, in the order of the sorted names |
| PlayerDiscovery.InstantiateEachFails | src/player/dynamic_imports.py:114-118 | on failure, the NameError of the first file that is not excluded and declares no class |
| PlayerDiscovery.CreatePlayersFromFolder | src/player/dynamic_imports.py:88-120 | a path that is not a directory gives `[]`; a duplicate gives the RuntimeError before any exclusion; otherwise the comprehension runs over the sorted names |
| PlayerDiscovery.CreatePlayersWithDefaults | src/player/dynamic_imports.py:88-95 | the call with the default folder, exclusion set and package; its contract is `DefaultFolderExample` |
| PlayerDiscovery.FolderOutcome | src/player/dynamic_imports.py:108-120 | success exactly when the path is no directory, or the names are distinct and every file that is not excluded declares a class; then there is one player per such file, in sorted name order; with distinct names the files kept are sorted and each listed file that is not excluded is kept exactly once |
| PlayerDiscovery.InstantiateEachReadsIncluded | src/player/dynamic_imports.py:114-118 | the comprehension reads only files that are not excluded |
| PlayerDiscovery.ExcludedFilesNotScanned | src/player/dynamic_imports.py:114-118 | the folder result does not depend on what an excluded file holds, even when it declares no class |
| PlayerDiscovery.NamesPermutation | src/player/dynamic_imports.py:78 | permuting the listing permutes its names |
| PlayerDiscovery.DistinctMultiplicity | src/player/dynamic_imports.py:80 | distinct names are names with no multiplicity above one |
| PlayerDiscovery.ListingOrderIrrelevant | src/player/dynamic_imports.py:76-120 | the players, their order and every error depend only on which files the folder holds, not on the listing order |
| PlayerDiscovery.SameLinesInPermutation | src/player/dynamic_imports.py:115 | with distinct names, a name reads the same file in any order of the listing |
| PlayerDiscovery.SortTwo | src/player/dynamic_imports.py:83 | two distinct names listed out of order are swapped by `sorted` |
| PlayerDiscovery.TitForTatPlayer | src/player/dynamic_imports.py:63-69 | `tit_for_tat.py` declaring `TitForTat` gives the player of class `TitForTat` from module `.tit_for_tat` in `src.player` |
| PlayerDiscovery.DefaultFolderExample | src/player/dynamic_imports.py:88-95 | with the default arguments, `__init__.py` is excluded and the strategy file is the one player |

## Left out

- Reading the JSON file in `GameFactoryFromJson.__init__` is not modelled. The constructor takes the parsed `id`, `type` and payoff cells, and the `__main__` demo is left out.
- GameFactories.GameFactoryFromJson.constructor requires that no payoff list object appears twice in the description. `json.load` never shares lists; a shared list would be reversed twice.
- GameFactories.Freeze is `nested_list_to_nested_tuple` on the three levels of a payoff matrix only, not on arbitrarily nested lists.
- Payoffs are `int`. Only their equality matters, and no arithmetic is done on them.
- The code performs no shape validation, and neither does the model: `zip` truncates a jagged matrix to its shortest row, and payoff lists of any length are reversed.
- Duplicates are whole file names, so `a.py` and `a.txt` are both kept.
- Rows of the parsed matrix are sequences of cells. The code never mutates the row lists, only the payoff lists, so only the payoff lists live on the heap.
- `os.walk`, `Path.is_dir` and opening files are not modelled. A folder is given as its directory flag and its listed files with their lines.
- `import_module`, `getattr` and `class_()` are reflection into modules this model cannot see. They are reduced to the `PlayerInstance` naming the package, the module name and the class, so import failures are not modelled.
- PlayerDiscovery.JoinPath concatenates with `/`; it does not normalise paths. Comparing names with the exclusion set is exact string equality, as `Path` equality is on POSIX.
- The NameError is modelled by the path it names; the message text around it is left out.
- PlayerDiscovery.LinesOf returns no lines for a name the listing does not hold. Every name the comprehension asks for comes from the listing, so that case is never used.
- The general regular-expression engine is not modelled. Only the one fixed pattern is matched, with `\s` as `str.isspace()` and `.` as any character but a newline.
- `tests/player/test_player_abc.py` is a test double with no logic of the core; it is not part of this model.
