/** `_get_player_class_name` of src/player/dynamic_imports.py: the one fixed
    pattern `class\s*(?P<class_name>.+?)\s*\(Player\)`, matched with
    `re.match` (anchored at the start of a line, not at its end) and
    Python's backtracking order, over the lines of a file. */
module PlayerClassNames {
  import opened Wrappers

  /** The failures raised while discovering players. */
  datatype DiscoveryError =
    | NoClassFound(path: string)  // the NameError naming a file in which no line declares a class
    | DuplicateFilenames          // the RuntimeError raised when two listed files share a name

  const Keyword: string := "class"
  const BaseClause: string := "(Player)"

  /** `\s` on a `str` pattern: the characters for which `str.isspace()` holds. */
  predicate IsSpace(ch: char) {
    ch == ' ' || ('\t' <= ch <= '\r') || ('\U{1c}' <= ch <= '\U{1f}') ||
    ch == '\U{85}' || ch == '\U{a0}' || ch == '\U{1680}' || ('\U{2000}' <= ch <= '\U{200a}') ||
    ch == '\U{2028}' || ch == '\U{2029}' || ch == '\U{202f}' || ch == '\U{205f}' || ch == '\U{3000}'
  }

  predicate AllSpace(s: string) {
    forall i :: 0 <= i < |s| ==> IsSpace(s[i])
  }

  /** `.` without DOTALL matches every character but a newline. */
  predicate NoNewline(s: string) {
    forall i :: 0 <= i < |s| ==> s[i] != '\n'
  }

  predicate StartsWith(s: string, prefix: string) {
    |prefix| <= |s| && s[..|prefix|] == prefix
  }

  /** `\s*\(Player\)` matches at the start of `s`. */
  predicate BaseFollows(s: string) {
    StartsWith(s, BaseClause) || (|s| > 0 && IsSpace(s[0]) && BaseFollows(s[1..]))
  }

  /** The whole pattern matches at the start of `line` with `\s*` taking `w`
      characters and the class name taking `n`. */
  predicate MatchesWith(line: string, w: nat, n: nat) {
    StartsWith(line, Keyword) && 5 + w + n <= |line| && n >= 1 &&
    AllSpace(line[5..5 + w]) && NoNewline(line[5 + w..5 + w + n]) &&
    BaseFollows(line[5 + w + n..])
  }

  /** The match Python's engine reports: the greedy `\s*` keeps the largest
      `w` that admits some match, then the lazy `.+?` the smallest `n`. */
  ghost predicate PreferredMatch(line: string, w: nat, n: nat) {
    MatchesWith(line, w, n) &&
    (forall w': nat :: w < w' ==> NoMatchWith(line, w')) &&
    (forall n': nat :: n' < n ==> !MatchesWith(line, w, n'))
  }

  /** No match with `\s*` taking exactly `w` characters. */
  ghost predicate NoMatchWith(line: string, w: nat) {
    forall k: nat :: !MatchesWith(line, w, k)
  }

  /** The smallest name length from `n` on that matches with `w`. */
  function SearchName(line: string, w: nat, n: nat): Option<nat>
    decreases |line| - n
  {
    if 5 + w + n > |line| then None
    else if MatchesWith(line, w, n) then Some(n)
    else SearchName(line, w, n + 1)
  }

  lemma {:induction false} SearchNameSpec(line: string, w: nat, n: nat)
    requires n >= 1
    ensures var found := SearchName(line, w, n);
      (found.None? ==> forall k: nat :: n <= k ==> !MatchesWith(line, w, k)) &&
      (found.Some? ==>
        n <= found.value && MatchesWith(line, w, found.value) &&
        forall k: nat :: n <= k < found.value ==> !MatchesWith(line, w, k))
    decreases |line| - n
  {
    if 5 + w + n <= |line| && !MatchesWith(line, w, n) {
      SearchNameSpec(line, w, n + 1);
    }
  }

  /** Backtracking over the leading whitespace, from `w` characters down. */
  function SearchSpace(line: string, w: nat): Option<(nat, nat)>
  {
    match SearchName(line, w, 1)
    case Some(n) => Some((w, n))
    case None => if w == 0 then None else SearchSpace(line, w - 1)
  }

  lemma {:induction false} SearchSpaceSpec(line: string, w: nat)
    ensures var found := SearchSpace(line, w);
      (found.None? ==> forall w': nat :: w' <= w ==> NoMatchWith(line, w')) &&
      (found.Some? ==>
        found.value.0 <= w && MatchesWith(line, found.value.0, found.value.1) &&
        (forall w': nat :: found.value.0 < w' <= w ==> NoMatchWith(line, w')) &&
        (forall k: nat :: k < found.value.1 ==> !MatchesWith(line, found.value.0, k)))
  {
    match SearchName(line, w, 1)
    case Some(n) =>
      SearchNameFirst(line, w, n);
    case None =>
      SearchNameNone(line, w);
      if w > 0 {
        SearchSpaceSpec(line, w - 1);
      }
  }

  /** A name length found from 1 is the smallest one overall. */
  lemma SearchNameFirst(line: string, w: nat, n: nat)
    requires SearchName(line, w, 1) == Some(n)
    ensures MatchesWith(line, w, n) && forall k: nat :: k < n ==> !MatchesWith(line, w, k)
  {
    SearchNameSpec(line, w, 1);
  }

  /** No name length found from 1: no match with `w` spaces. */
  lemma SearchNameNone(line: string, w: nat)
    requires SearchName(line, w, 1).None?
    ensures NoMatchWith(line, w)
  {
    SearchNameSpec(line, w, 1);
  }

  /** The number of whitespace characters from position `i` on. */
  function SpaceRun(s: string, i: nat): nat
    requires i <= |s|
    decreases |s| - i
  {
    if i < |s| && IsSpace(s[i]) then 1 + SpaceRun(s, i + 1) else 0
  }

  lemma {:induction false} SpaceRunSpec(s: string, i: nat)
    requires i <= |s|
    ensures var k := SpaceRun(s, i);
      i + k <= |s| && AllSpace(s[i..i + k]) && (i + k < |s| ==> !IsSpace(s[i + k]))
    decreases |s| - i
  {
    if i < |s| && IsSpace(s[i]) {
      SpaceRunSpec(s, i + 1);
      var k := SpaceRun(s, i);
      assert s[i..i + k] == [s[i]] + s[i + 1..i + k];
    }
  }

  /** Where `re.match` finds the pattern in `line`, if anywhere. */
  function FindMatch(line: string): Option<(nat, nat)> {
    if !StartsWith(line, Keyword) then None
    else SearchSpace(line, SpaceRun(line, 5))
  }

  /** The search finds a match exactly when there is one, and then the
      one Python's backtracking order prefers. */
  lemma FindMatchSpec(line: string)
    ensures FindMatch(line).None? <==> forall w: nat :: NoMatchWith(line, w)
    ensures FindMatch(line).Some? ==> PreferredMatch(line, FindMatch(line).value.0, FindMatch(line).value.1)
  {
    if StartsWith(line, Keyword) {
      var most := SpaceRun(line, 5);
      SpaceRunSpec(line, 5);
      forall w: nat | most < w
        ensures NoMatchWith(line, w)
      {
        if 5 + w <= |line| {
          assert line[5..5 + w][most] == line[5 + most];
        }
      }
      SearchSpaceSpec(line, most);
      if FindMatch(line).Some? {
        assert !NoMatchWith(line, FindMatch(line).value.0);
      }
    }
  }

  /** The `class_name` group of the match in `line`, if the line matches. */
  function MatchClassName(line: string): Option<string> {
    match FindMatch(line)
    case None => None
    case Some((w, n)) =>
      FindMatchSpec(line);
      Some(line[5 + w..5 + w + n])
  }

  /** A line yields a name exactly when the pattern matches it, and the name
      is the group of the match Python's backtracking order prefers. */
  lemma MatchClassNameSpec(line: string)
    ensures MatchClassName(line).None? <==> forall w: nat :: NoMatchWith(line, w)
    ensures MatchClassName(line).Some? ==>
      exists w: nat, n: nat :: PreferredMatch(line, w, n) && MatchClassName(line).value == line[5 + w..5 + w + n]
  {
    FindMatchSpec(line);
    match FindMatch(line)
    case None =>
    case Some((w, n)) =>
      assert PreferredMatch(line, w, n);
  }

  /** The reported name never starts or ends with whitespace, except when it
      is a single character: leading whitespace goes to the greedy `\s*`,
      trailing whitespace to the `\s*` before `(Player)`. */
  lemma {:induction false} NameIsTrimmed(line: string, w: nat, n: nat)
    requires PreferredMatch(line, w, n) && n >= 2
    ensures !IsSpace(line[5 + w]) && !IsSpace(line[5 + w + n - 1])
  {
    if IsSpace(line[5 + w]) {
      assert line[5..5 + w + 1] == line[5..5 + w] + [line[5 + w]];
      assert line[5 + w + 1..5 + w + 1 + (n - 1)] == line[5 + w..5 + w + n][1..];
      MatchIsNotNoMatch(line, w + 1, n - 1);
    }
    if IsSpace(line[5 + w + n - 1]) {
      assert line[5 + w + n - 1..][1..] == line[5 + w + n..];
      assert BaseFollows(line[5 + w + n - 1..]);
      assert line[5 + w..5 + w + n - 1] == line[5 + w..5 + w + n][..n - 1];
      assert MatchesWith(line, w, n - 1);
    }
  }

  /** `re.match` is anchored: an indented declaration is not found. */
  lemma IndentedLineNeverMatches(line: string)
    requires |line| > 0 && IsSpace(line[0])
    ensures MatchClassName(line) == None
  {
    assert !StartsWith(line, Keyword) by {
      assert !IsSpace(Keyword[0]);
    }
  }

  lemma MatchIsNotNoMatch(line: string, w: nat, n: nat)
    requires MatchesWith(line, w, n)
    ensures !NoMatchWith(line, w)
  {
  }

  /** Python's engine reports one match: the preferred one is unique. */
  lemma PreferredMatchUnique(line: string, w1: nat, n1: nat, w2: nat, n2: nat)
    requires PreferredMatch(line, w1, n1) && PreferredMatch(line, w2, n2)
    ensures w1 == w2 && n1 == n2
  {
    if w1 < w2 {
      MatchIsNotNoMatch(line, w2, n2);
    } else if w2 < w1 {
      MatchIsNotNoMatch(line, w1, n1);
    }
  }

  lemma MatchClassNameOf(line: string, w: nat, n: nat)
    requires PreferredMatch(line, w, n)
    ensures MatchClassName(line) == Some(line[5 + w..5 + w + n])
  {
    FindMatchSpec(line);
    assert !NoMatchWith(line, w);
    var found := FindMatch(line);
    PreferredMatchUnique(line, w, n, found.value.0, found.value.1);
  }

  /** `\s*\(Player\)` can only start with whitespace or `(`. */
  lemma BaseFollowsStart(s: string)
    requires |s| > 0 && !IsSpace(s[0]) && s[0] != '('
    ensures !BaseFollows(s)
  {
  }

  /** The name stops before `(Player)`: `class TitForTat(Player):` yields `TitForTat`. */
  lemma MatchExample(line: string)
    requires line == "class TitForTat(Player):\n"
    ensures MatchClassName(line) == Some("TitForTat")
  {
    assert line[5..6] == " " && line[6..15] == "TitForTat" && line[15..][..8] == BaseClause;
    assert MatchesWith(line, 1, 9);
    forall w: nat, n: nat | 1 < w
      ensures !MatchesWith(line, w, n)
    {
      NoMatchWithWideSpace(line, w, n);
    }
    forall n: nat | n < 9
      ensures !MatchesWith(line, 1, n)
    {
      NoMatchBeforeBase(line, n);
    }
    MatchClassNameOf(line, 1, 9);
  }

  lemma NoMatchWithWideSpace(line: string, w: nat, n: nat)
    requires line == "class TitForTat(Player):\n" && 1 < w
    ensures !MatchesWith(line, w, n)
  {
    if 5 + w <= |line| {
      assert line[5..5 + w][1] == 'T';
    }
  }

  lemma NoMatchBeforeBase(line: string, n: nat)
    requires line == "class TitForTat(Player):\n" && n < 9
    ensures !MatchesWith(line, 1, n)
  {
    if 1 <= n {
      assert line[6 + n..][0] == line[6 + n];
      BaseFollowsStart(line[6 + n..]);
    }
  }

  /** Backtracking out of the greedy `\s*`: `class (Player)` yields the single space. */
  lemma MatchBacktrackExample(line: string)
    requires line == "class (Player)"
    ensures MatchClassName(line) == Some(" ")
  {
    assert line[6..][..8] == BaseClause;
    assert MatchesWith(line, 0, 1);
    NoMatchWithSpace(line);
    MatchClassNameOf(line, 0, 1);
    assert line[5..6] == " ";
  }

  lemma NoMatchWithSpace(line: string)
    requires line == "class (Player)"
    ensures forall w: nat, n: nat :: 0 < w ==> !MatchesWith(line, w, n)
  {
    forall w: nat, n: nat | 0 < w
      ensures !MatchesWith(line, w, n)
    {
      if w > 1 && 5 + w <= |line| {
        assert line[5..5 + w][1] == '(';
      } else if w == 1 {
        NoMatchAfterSpace(line, n);
      }
    }
  }

  lemma NoMatchAfterSpace(line: string, n: nat)
    requires line == "class (Player)"
    ensures !MatchesWith(line, 1, n)
  {
    if 1 <= n && 6 + n < |line| {
      assert line[6 + n..][0] == line[6 + n];
      BaseFollowsStart(line[6 + n..]);
    } else if 6 + n == |line| {
      assert line[6 + n..] == [];
    }
  }

  /** The class name of the first line, in file order, that matches. */
  function DeclaredClassName(lines: seq<string>): Option<string> {
    if lines == [] then None
    else if MatchClassName(lines[0]).Some? then MatchClassName(lines[0])
    else DeclaredClassName(lines[1..])
  }

  /** The name comes from the first matching line; there is none exactly
      when no line matches. */
  lemma {:induction false} DeclaredClassNameSpec(lines: seq<string>)
    ensures DeclaredClassName(lines).None? <==> forall i :: 0 <= i < |lines| ==> MatchClassName(lines[i]).None?
    ensures DeclaredClassName(lines).Some? ==>
      exists i :: 0 <= i < |lines| && MatchClassName(lines[i]) == DeclaredClassName(lines) &&
        forall j :: 0 <= j < i ==> MatchClassName(lines[j]).None?
  {
    if lines != [] && MatchClassName(lines[0]).None? {
      DeclaredClassNameSpec(lines[1..]);
      assert forall i :: 1 <= i < |lines| ==> lines[1..][i - 1] == lines[i];
      if DeclaredClassName(lines).Some? {
        var i :| 0 <= i < |lines[1..]| && MatchClassName(lines[1..][i]) == DeclaredClassName(lines) &&
          forall j :: 0 <= j < i ==> MatchClassName(lines[1..][j]).None?;
        assert MatchClassName(lines[i + 1]) == DeclaredClassName(lines);
      }
    }
  }

  /** `_get_player_class_name`: scans the lines of the file at `path` in
      order and returns the name from the first declaration it matches;
      raises a NameError naming `path` when no line matches. */
  method GetPlayerClassName(path: string, lines: seq<string>) returns (r: Result<string, DiscoveryError>)
    ensures r.Failure? <==> forall i :: 0 <= i < |lines| ==> MatchClassName(lines[i]).None?
    ensures r.Failure? ==> r.error == NoClassFound(path)
    ensures r.Success? ==>
      exists i :: 0 <= i < |lines| && MatchClassName(lines[i]) == Some(r.value) &&
        forall j :: 0 <= j < i ==> MatchClassName(lines[j]).None?
    ensures r == if DeclaredClassName(lines).Some? then Success(DeclaredClassName(lines).value)
                 else Failure(NoClassFound(path))
  {
    DeclaredClassNameSpec(lines);
    for i := 0 to |lines|
      invariant forall j :: 0 <= j < i ==> MatchClassName(lines[j]).None?
    {
      var regexMatch := MatchClassName(lines[i]);
      if regexMatch.Some? {
        return Success(regexMatch.value);
      }
    }
    return Failure(NoClassFound(path));
  }
}
