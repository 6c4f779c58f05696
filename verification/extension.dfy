/** The logic of the blog-authoring extension: zero-padded date parts, the
    front-matter template, the search for a free `untitled` file name, the
    "create post stub" command and the "rename this file" command. The editor
    host appears only through the file map of `Host.FileSystem` and through
    parameters (clock readings, workspace roots, the active file, the text
    the user types). */
module Extension {
  import opened Wrappers
  import opened Decimal
  import opened Text
  import opened Host

  /** What a command leaves behind for the user. */
  datatype Outcome =
    | Opened(file: Path)        // the file is opened and shown in the editor
    | Informed(message: string) // an information message is shown
    | Quiet                     // the command ends without any effect
    | Failed(error: HostError)  // a host failure propagates out of the command

  const CannotCreateMessage := "Cannot create new post :-("
  const NoFileMessage := "No file :-("

  // ---------------------------------------------------------------------
  // toZeroPaddedString

  function Max(a: int, b: int): int {
    if a < b then b else a
  }

  /** `num`'s decimal string, left-padded with '0' to at least `digit`
      characters; never truncated. */
  function ZeroPadded(num: int, digit: int): (s: string)
    ensures |s| == Max(digit, |IntToString(num)|)
    ensures s[|s| - |IntToString(num)|..] == IntToString(num)
    ensures forall i :: 0 <= i < |s| - |IntToString(num)| ==> s[i] == '0'
  {
    var natural := IntToString(num);
    Zeros(Max(digit, |natural|) - |natural|) + natural
  }

  /** The loop of `toZeroPaddedString`: prepend '0' while too short. */
  method ToZeroPaddedString(num: int, digit: int) returns (s: string)
    ensures s == ZeroPadded(num, digit)
  {
    s := IntToString(num);
    ghost var natural := s;
    while |s| < digit
      invariant |natural| <= |s| <= Max(digit, |natural|)
      invariant s == Zeros(|s| - |natural|) + natural
      decreases digit - |s|
    {
      var k := |s| - |natural|;
      PrependZero(k);
      assert "0" + s == ("0" + Zeros(k)) + natural;
      s := "0" + s;
    }
    assert |s| == Max(digit, |natural|);
  }

  /** A width at most the natural length leaves the string as it is. */
  lemma ZeroPaddedUnchanged(num: int, digit: int)
    requires digit <= |IntToString(num)|
    ensures ZeroPadded(num, digit) == IntToString(num)
  {
    var s := ZeroPadded(num, digit);
    assert s == s[|s| - |IntToString(num)|..];
  }

  /** For a non-negative number the padded string is all digits and still
      denotes the number. */
  lemma ZeroPaddedValue(num: int, digit: int)
    requires num >= 0
    ensures AllDigits(ZeroPadded(num, digit))
    ensures DecimalValue(ZeroPadded(num, digit)) == num
  {
    var natural := NatToString(num);
    var k := Max(digit, |natural|) - |natural|;
    assert ZeroPadded(num, digit) == Zeros(k) + natural;
    DecimalValueIgnoresLeadingZeros(k, natural);
    DecimalValueOfNatToString(num);
  }

  /** Widths 2 on 7, 42 and 12345. */
  lemma PaddingExamples()
    ensures ZeroPadded(7, 2) == "07"
    ensures ZeroPadded(42, 2) == "42"
    ensures ZeroPadded(12345, 2) == "12345"
  {
    assert NatToString(7) == "7";
    assert NatToString(42) == "42";
  }

  // ---------------------------------------------------------------------
  // createFrontMatter

  const Rule := "---"
  const TitleLine := "title: \"Untitled\""
  const DatePrefix := "date: \""
  const DraftLine := "draft: true"
  const TagsLine := "tags: []"

  function DateLine(y: string, m: string, d: string): string {
    DatePrefix + y + "-" + m + "-" + d + "\""
  }

  /** The front-matter template, line by line, with the date `y-m-d` filled
      in; every line, the last included, ends in a newline. */
  function CreateFrontMatter(y: string, m: string, d: string): string {
    Rule + "\n" + TitleLine + "\n" + DateLine(y, m, d) + "\n" + DraftLine + "\n" + TagsLine + "\n" + Rule + "\n"
  }

  /** Reads the date fields back from a `date: "y-m-d"` line. */
  function ParseDateLine(line: string): Option<(string, string, string)> {
    if |line| >= |DatePrefix| + 1 && line[..|DatePrefix|] == DatePrefix && line[|line| - 1] == '"' then
      var parts := Split(line[|DatePrefix|..|line| - 1], '-');
      if |parts| == 3 then Some((parts[0], parts[1], parts[2])) else None
    else None
  }

  lemma SplitSixLines(l0: string, l1: string, l2: string, l3: string, l4: string, l5: string, sep: char)
    requires sep !in l0 && sep !in l1 && sep !in l2 && sep !in l3 && sep !in l4 && sep !in l5
    ensures Split(l0 + [sep] + l1 + [sep] + l2 + [sep] + l3 + [sep] + l4 + [sep] + l5 + [sep], sep)
            == [l0, l1, l2, l3, l4, l5, ""]
  {
    var a2 := l0 + [sep] + l1;
    var a3 := a2 + [sep] + l2;
    var a4 := a3 + [sep] + l3;
    var a5 := a4 + [sep] + l4;
    var a6 := a5 + [sep] + l5;
    SplitWithoutSeparator(l0, sep);
    SplitThenPiece(l0, l1, sep);
    SplitThenPiece(a2, l2, sep);
    SplitThenPiece(a3, l3, sep);
    SplitThenPiece(a4, l4, sep);
    SplitThenPiece(a5, l5, sep);
    SplitThenPiece(a6, "", sep);
    assert a6 + [sep] + "" == a6 + [sep];
  }

  /** Split at newlines, the front matter is exactly the template's lines
      (and an empty piece after the final newline). */
  lemma FrontMatterHasTemplateLines(y: string, m: string, d: string)
    requires '\n' !in y && '\n' !in m && '\n' !in d
    ensures Split(CreateFrontMatter(y, m, d), '\n')
            == [Rule, TitleLine, DateLine(y, m, d), DraftLine, TagsLine, Rule, ""]
  {
    assert '\n' !in DateLine(y, m, d);
    SplitSixLines(Rule, TitleLine, DateLine(y, m, d), DraftLine, TagsLine, Rule, '\n');
  }

  /** Only the date line depends on the arguments. */
  lemma FrontMatterOnlyDateVaries(y: string, m: string, d: string, y': string, m': string, d': string)
    requires '\n' !in y && '\n' !in m && '\n' !in d
    requires '\n' !in y' && '\n' !in m' && '\n' !in d'
    ensures var a, b := Split(CreateFrontMatter(y, m, d), '\n'), Split(CreateFrontMatter(y', m', d'), '\n');
      |a| == |b| == 7 && forall i :: 0 <= i < 7 && i != 2 ==> a[i] == b[i]
  {
    FrontMatterHasTemplateLines(y, m, d);
    FrontMatterHasTemplateLines(y', m', d');
  }

  /** The date line gives back the three fields when none holds '-'. */
  lemma DateLineRoundTrip(y: string, m: string, d: string)
    requires '-' !in y && '-' !in m && '-' !in d
    ensures ParseDateLine(DateLine(y, m, d)) == Some((y, m, d))
  {
    var line := DateLine(y, m, d);
    var inner := y + "-" + m + "-" + d;
    assert line == DatePrefix + inner + "\"";
    assert line[..|DatePrefix|] == DatePrefix && line[|DatePrefix|..|line| - 1] == inner;
    SplitWithoutSeparator(y, '-');
    SplitWithoutSeparator(m, '-');
    SplitWithoutSeparator(d, '-');
    SplitAround(y, m, '-');
    SplitAround(y + "-" + m, d, '-');
  }

  // ---------------------------------------------------------------------
  // createUntitled

  /** The number of names tried before giving up. */
  const MaxCandidates := 20

  /** `untitled.md` for the first attempt, `untitled_<i>.md` after it. */
  function CandidateName(i: nat): string {
    if i == 0 then "untitled.md" else "untitled_" + NatToString(i) + ".md"
  }

  /** The paths tried, in order, in directory `dir`. */
  function CandidatePaths(dir: Path): (paths: seq<Path>)
    ensures |paths| == MaxCandidates
  {
    seq(MaxCandidates, i requires 0 <= i => JoinPath(dir, CandidateName(i)))
  }

  /** Distinct attempts use distinct names. */
  lemma CandidateNamesDistinct(i: nat, j: nat)
    requires i != j
    ensures CandidateName(i) != CandidateName(j)
  {
    var a, b := CandidateName(i), CandidateName(j);
    if i != 0 && j != 0 {
      if a == b {
        assert a[9..|a| - 3] == NatToString(i);
        assert b[9..|b| - 3] == NatToString(j);
        NatToStringInjective(i, j);
      }
    } else {
      assert a[8] != b[8];
    }
  }

  /** All the paths tried in one directory are different, so the search
      really has twenty chances. */
  lemma CandidatePathsDistinct(dir: Path, i: nat, j: nat)
    requires i < j < MaxCandidates
    ensures CandidatePaths(dir)[i] != CandidatePaths(dir)[j]
  {
    CandidateNamesDistinct(i, j);
    var p, q := CandidatePaths(dir)[i], CandidatePaths(dir)[j];
    assert p[|dir| + 1..] == CandidateName(i) && q[|dir| + 1..] == CandidateName(j);
  }

  /** The first position from `i` on whose path is not in `files`, if any. */
  function FirstAbsent(files: map<Path, Content>, paths: seq<Path>, i: nat): (k: Option<nat>)
    requires i <= |paths|
    ensures k.Some? ==> i <= k.value < |paths| && paths[k.value] !in files
    ensures k.Some? ==> forall j :: i <= j < k.value ==> paths[j] in files
    ensures k.None? <==> forall j :: i <= j < |paths| ==> paths[j] in files
    decreases |paths| - i
  {
    if i == |paths| then None
    else if paths[i] !in files then Some(i)
    else FirstAbsent(files, paths, i + 1)
  }

  /** When only `untitled.md` is taken, the second name is chosen. */
  lemma SecondNameWhenFirstTaken(dir: Path, content: Content)
    ensures var paths := CandidatePaths(dir);
      FirstAbsent(map[paths[0] := content], paths, 0) == Some(1)
  {
    CandidatePathsDistinct(dir, 0, 1);
  }

  /** `createUntitled`: writes `content` to the first free candidate path and
      returns it; returns None and writes nothing when all are taken. */
  method CreateUntitled(fs: FileSystem, dir: Path, content: Content) returns (file: Option<Path>)
    modifies fs
    ensures var paths := CandidatePaths(dir);
      match FirstAbsent(old(fs.files), paths, 0)
        case Some(k) =>
          file == Some(paths[k]) && fs.files == old(fs.files)[paths[k] := content]
        case None =>
          file == None && fs.files == old(fs.files)
  {
    var paths := CandidatePaths(dir);
    ghost var before := fs.files;
    for i := 0 to |paths|
      invariant fs.files == before
      invariant forall j :: 0 <= j < i ==> paths[j] in before
      invariant FirstAbsent(before, paths, 0) == FirstAbsent(before, paths, i)
    {
      var taken := fs.Exists(paths[i]);
      if !taken {
        fs.WriteFile(paths[i], content);
        return Some(paths[i]);
      }
    }
    return None;
  }

  // ---------------------------------------------------------------------
  // createPostStub

  /** `content/post/<y>/<m>` below the workspace root. */
  function PostDirectory(root: Path, y: string, m: string): Path {
    JoinPath(root, "content/post/" + y + "/" + m)
  }

  /** `createPostStub`, with the clock readings (`getFullYear`, the 0-based
      `getMonth`, `getDate`) and the workspace roots as parameters. */
  method CreatePostStub(fs: FileSystem, roots: seq<Path>, fullYear: int, monthIndex: int, dayOfMonth: int)
    returns (outcome: Outcome)
    modifies fs
    ensures roots == [] ==> outcome == Failed(NoWorkspaceFolder) && fs.files == old(fs.files)
    ensures roots != [] ==>
      var y, m, d := ZeroPadded(fullYear, 4), ZeroPadded(monthIndex + 1, 2), ZeroPadded(dayOfMonth, 2);
      var paths := CandidatePaths(PostDirectory(roots[0], y, m));
      match FirstAbsent(old(fs.files), paths, 0)
        case Some(k) =>
          outcome == Opened(paths[k])
          && fs.files == old(fs.files)[paths[k] := CreateFrontMatter(y, m, d)]
        case None =>
          outcome == Informed(CannotCreateMessage) && fs.files == old(fs.files)
  {
    if roots == [] {
      return Failed(NoWorkspaceFolder);
    }
    var root := roots[0];
    var y := ToZeroPaddedString(fullYear, 4);
    var m := ToZeroPaddedString(monthIndex + 1, 2);
    var d := ToZeroPaddedString(dayOfMonth, 2);
    var dir := JoinPath(root, "content/post/" + y + "/" + m);
    var file := CreateUntitled(fs, dir, CreateFrontMatter(y, m, d));
    if file.None? {
      return Informed(CannotCreateMessage);
    }
    return Opened(file.value);
  }

  lemma SplitFivePieces(l0: string, l1: string, l2: string, l3: string, l4: string, sep: char)
    requires sep !in l0 && sep !in l1 && sep !in l2 && sep !in l3 && sep !in l4
    ensures Split(l0 + [sep] + l1 + [sep] + l2 + [sep] + l3 + [sep] + l4, sep) == [l0, l1, l2, l3, l4]
  {
    var a2 := l0 + [sep] + l1;
    var a3 := a2 + [sep] + l2;
    var a4 := a3 + [sep] + l3;
    SplitWithoutSeparator(l0, sep);
    SplitThenPiece(l0, l1, sep);
    SplitThenPiece(a2, l2, sep);
    SplitThenPiece(a3, l3, sep);
    SplitThenPiece(a4, l4, sep);
  }

  /** The post file's path is the root's pieces followed by `content`,
      `post`, the year, the month and the file name. */
  lemma PostPathPieces(root: Path, y: string, m: string, name: string)
    requires '/' !in y && '/' !in m && '/' !in name
    ensures Split(JoinPath(PostDirectory(root, y, m), name), '/')
            == Split(root, '/') + ["content", "post", y, m, name]
  {
    var rest := "content" + "/" + "post" + "/" + y + "/" + m + "/" + name;
    assert "content/post/" == "content" + "/" + "post" + "/";
    assert JoinPath(PostDirectory(root, y, m), name) == root + "/" + rest;
    SplitFivePieces("content", "post", y, m, name, '/');
    SplitAround(root, rest, '/');
  }

  /** The post file `name` for date `y-m-d` lies at
      `<root>/content/post/<y>/<m>/<name>`, and its front matter has seven
      lines whose date line reads back as `y`, `m` and `d`. */
  ghost predicate PostStubAgrees(root: Path, y: string, m: string, d: string, name: string) {
    var lines := Split(CreateFrontMatter(y, m, d), '\n');
    && Split(JoinPath(PostDirectory(root, y, m), name), '/')
       == Split(root, '/') + ["content", "post", y, m, name]
    && |lines| == 7 && ParseDateLine(lines[2]) == Some((y, m, d))
  }

  lemma DigitDatePostStubAgrees(root: Path, y: string, m: string, d: string, k: nat)
    requires AllDigits(y) && AllDigits(m) && AllDigits(d)
    ensures PostStubAgrees(root, y, m, d, CandidateName(k))
  {
    DigitsExclude(y, '/'); DigitsExclude(m, '/');
    DigitsExclude(y, '-'); DigitsExclude(m, '-'); DigitsExclude(d, '-');
    DigitsExclude(y, '\n'); DigitsExclude(m, '\n'); DigitsExclude(d, '\n');
    CandidateNameHasNoSlash(k);
    PostPathPieces(root, y, m, CandidateName(k));
    FrontMatterHasTemplateLines(y, m, d);
    DateLineRoundTrip(y, m, d);
  }

  /** For a non-negative date, the stub `createPostStub` writes lies in the
      directory named after the padded year and month, and its front matter's
      date line carries the same year and month, with the padded day after
      them. */
  lemma PostStubIsConsistent(root: Path, fullYear: int, monthIndex: int, dayOfMonth: int, k: nat)
    requires fullYear >= 0 && monthIndex + 1 >= 0 && dayOfMonth >= 0
    ensures PostStubAgrees(root, ZeroPadded(fullYear, 4), ZeroPadded(monthIndex + 1, 2),
                           ZeroPadded(dayOfMonth, 2), CandidateName(k))
  {
    ZeroPaddedValue(fullYear, 4);
    ZeroPaddedValue(monthIndex + 1, 2);
    ZeroPaddedValue(dayOfMonth, 2);
    DigitDatePostStubAgrees(root, ZeroPadded(fullYear, 4), ZeroPadded(monthIndex + 1, 2),
                            ZeroPadded(dayOfMonth, 2), k);
  }

  lemma CandidateNameHasNoSlash(k: nat)
    ensures '/' !in CandidateName(k)
  {
    if k > 0 {
      DigitsExclude(NatToString(k), '/');
    }
  }

  lemma DigitsExclude(s: string, c: char)
    requires AllDigits(s) && !IsDigit(c)
    ensures c !in s
  {
  }

  // ---------------------------------------------------------------------
  // renameThis

  /** The `valueSelection` of the rename prompt: from just after the last
      '/' to the last '.', with no further adjustment (the end is -1 when the
      path has no '.', and may lie before the start). */
  function Preselection(path: Path): (sel: (int, int))
    ensures 0 <= sel.0 <= |path| && -1 <= sel.1 < |path|
  {
    (LastIndexOf(path, '/') + 1, LastIndexOf(path, '.'))
  }

  /** The selection starts at the file name (the last '/'-separated piece of
      the path) and, when the file name holds a '.', ends where the file
      name's last extension begins, so it covers exactly the stem. */
  lemma PreselectionCoversStem(path: Path)
    ensures var sel := Preselection(path);
      var name := Last(Split(path, '/'));
      && path[sel.0..] == name
      && ('.' in name <==> sel.0 <= sel.1)
      && (sel.0 <= sel.1 ==> path[sel.0..sel.1] == name[..LastIndexOf(name, '.')])
  {
    LastPiece(path, '/');
    StemOfName(path, LastIndexOf(path, '/') + 1);
  }

  lemma StemOfName(path: Path, start: nat)
    requires start <= |path|
    ensures var end, name := LastIndexOf(path, '.'), path[start..];
      && ('.' in name <==> start <= end)
      && (start <= end ==> path[start..end] == name[..LastIndexOf(name, '.')])
  {
    var end, name := LastIndexOf(path, '.'), path[start..];
    if start <= end {
      LastIndexOfSuffix(path, '.', start);
      assert name[end - start] == '.';
    } else {
      forall j | 0 <= j < |name|
        ensures name[j] != '.'
      {
        assert name[j] == path[start + j];
      }
    }
  }

  /** For `/a/b/note.md` the selection is `note`. */
  lemma PreselectionExample()
    ensures Preselection("/a/b/note.md") == (5, 9)
  {
    var p := "/a/b/note.md";
    assert p[9] == '.' && p[4] == '/';
  }

  /** The rename target the user's answer asks for: none when the prompt was
      cancelled, left empty or left unchanged. */
  function RenameTarget(current: Path, entered: Option<string>): (target: Option<Path>)
    ensures target.Some? <==> entered.Some? && entered.value != "" && entered.value != current
    ensures target.Some? ==> target.value == entered.value
  {
    match entered
      case None => None
      case Some(path) => if path == "" || path == current then None else Some(path)
  }

  /** `renameThis`. `active` is the path of the active editor's file (None
      when there is none), `editorText` the text its document holds, and
      `prompt` what the user answers when shown a value and a selection. */
  method RenameThis(fs: FileSystem, active: Option<Path>, editorText: Content,
                    prompt: (Path, (int, int)) -> Option<string>)
    returns (outcome: Outcome)
    modifies fs
    ensures active.None? ==> outcome == Informed(NoFileMessage) && fs.files == old(fs.files)
    ensures active.Some? ==>
      var current := active.value;
      var saved := old(fs.files)[current := editorText];
      match RenameTarget(current, prompt(current, Preselection(current)))
        case None =>
          outcome == Quiet && fs.files == saved
        case Some(target) =>
          if target in saved then
            outcome == Failed(FileExists(target)) && fs.files == saved
          else
            outcome == Opened(target) && fs.files == Moved(saved, current, target)
  {
    if active.None? {
      return Informed(NoFileMessage);
    }
    var current := active.value;
    fs.WriteFile(current, editorText);
    var entered := prompt(current, (LastIndexOf(current, '/') + 1, LastIndexOf(current, '.')));
    if entered.None? || entered.value == "" || entered.value == current {
      return Quiet;
    }
    var target := entered.value;
    var error := fs.Rename(current, target, false);
    if error.Some? {
      return Failed(error.value);
    }
    return Opened(target);
  }
}
