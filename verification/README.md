# yokogakix: a verified model of the post-authoring helper

yokogakix is an editor extension for a static-site blog. It offers two
commands:

- **createPostStub** creates a dated post file
  `<root>/content/post/<yyyy>/<mm>/untitled[_<i>].md` that holds a fixed
  front-matter block, then opens it.
- **renameThis** asks for a new path for the file in the active editor,
  renames the file without overwriting anything, then opens it again.

This Dafny project models the logic behind those commands. The files are:

- `decimal.dfy` (module `Decimal`): how `Number.prototype.toString()` renders
  an integer, and the value a string of digits denotes.
- `text.dfy` (module `Text`): `lastIndexOf` on one character, and splitting a
  string at a separator. The properties about paths and lines are stated with
  `Split`.
- `host.dfy` (module `Host`): the workspace file system as a class
  `FileSystem` that holds a map from path to content. It has the three
  operations the extension calls: an existence check, `writeFile` and
  `rename`.
- `extension.dfy` (module `Extension`): `toZeroPaddedString`,
  `createFrontMatter`, `createUntitled`, `createPostStub` and `renameThis`.
- `wrappers.dfy` (module `Wrappers`): `Option`, which stands for `null`,
  `undefined` and a cancelled prompt.

The two loops of the source are methods with loop invariants:
`ToZeroPaddedString` prepends `'0'`, and `CreateUntitled` probes 20
candidate paths. Each is proved against a specification function
(`ZeroPadded`, `FirstAbsent`), and lemmas state what the source promises
about that function.

The commands are methods that change `FileSystem.files`. Everything the
editor host supplies comes in as a parameter:

- the clock readings (`getFullYear`, the 0-based `getMonth`, `getDate`);
- the workspace roots;
- the active file's path and the text of its document;
- the user's answer to the prompt, as a function of the value and the
  selection the prompt shows.

What a command shows the user is its `Outcome`: a file opened, an
information message, nothing, or a host error that escapes the command.

The code writes under `content/post/<y>/<m>`. The code has no guard for a
missing workspace folder: `workspaceFolders![0]` throws, so the model returns
`Failed(NoWorkspaceFolder)` and changes no file.

## Model

| member | source | states |
|---|---|---|
| `Decimal.NatToString` | src/extension.ts:6 | `toString` of a natural number is a nonempty string of digits with no leading zero, except for `"0"` itself |
| `Decimal.IntToString` | src/extension.ts:6 | `toString` of an integer starts with `-` exactly when the number is negative; a non-negative number gives digits only |
| `Decimal.DecimalValueOfNatToString` | src/extension.ts:6 | reading the decimal rendering of `n` back gives `n` |
| `Decimal.NatToStringOfDecimalValue` | src/extension.ts:6 | every canonical digit string is the rendering of the number it denotes (the converse round trip) |
| `Decimal.NatToStringInjective` | src/extension.ts:37 | different numbers render differently, so `untitled_<i>` names differ for different `i` |
| `Extension.ZeroPadded` | src/extension.ts:5-12 | the padded string's length is the larger of `digit` and the natural length; it ends with `num.toString()` unchanged, and everything before that is `'0'` |
| `Extension.ToZeroPaddedString` | src/extension.ts:5-12 | the prepend-`'0'` loop returns exactly `ZeroPadded(num, digit)`, so it never truncates |
| `Extension.ZeroPaddedUnchanged` | src/extension.ts:7-11 | when `digit` is at most the natural length, the natural string is returned as it is |
| `Extension.ZeroPaddedValue` | src/extension.ts:6-11 | for a non-negative number the padded string is all digits and still denotes the number |
| `Extension.PaddingExamples` | src/extension.ts:51-53 | padding 7, 42 and 12345 to width 2 gives `07`, `42` and `12345` |
| `Extension.FrontMatterHasTemplateLines` | src/extension.ts:23-30 | split at newlines, the front matter is exactly `---`, `title: "Untitled"`, `date: "y-m-d"`, `draft: true`, `tags: []`, `---`, then an empty piece after the final newline |
| `Extension.FrontMatterOnlyDateVaries` | src/extension.ts:24-30 | two front matters agree on every line except the date line |
| `Extension.DateLineRoundTrip` | src/extension.ts:26 | the date line reads back as the three fields it was built from, when none of them holds `-` |
| `Extension.CandidatePaths` | src/extension.ts:36-38 | there are exactly 20 candidate paths |
| `Extension.CandidateNamesDistinct` | src/extension.ts:36-37 | `untitled.md`, `untitled_1.md` … `untitled_19.md` are pairwise different |
| `Extension.CandidatePathsDistinct` | src/extension.ts:36-38 | the 20 paths probed in one directory are pairwise different |
| `Extension.FirstAbsent` | src/extension.ts:36-45 | the first position whose path does not exist, with every earlier path existing; none exactly when every path exists |
| `Extension.SecondNameWhenFirstTaken` | src/extension.ts:36-42 | with only `untitled.md` present, the second candidate (`untitled_1.md`) is chosen |
| `Extension.CreateUntitled` | src/extension.ts:35-46 | returns the first free candidate, and the file system gains exactly that file with `content`; when all 20 are taken it returns None and changes nothing |
| `Extension.CreatePostStub` | src/extension.ts:48-63 | without a workspace folder the command fails and writes nothing. Otherwise it writes the front matter for the padded date to the first free candidate in `<root>/content/post/<y>/<m>` and opens it. If all 20 are taken it shows "Cannot create new post :-(" and writes nothing |
| `Extension.PostPathPieces` | src/extension.ts:54 | the post path splits into the root's pieces, then `content`, `post`, year, month and the file name |
| `Extension.DigitDatePostStubAgrees` | src/extension.ts:51-55 | for digit-only year, month and day, the post's directory and its front matter's date line carry the same year and month |
| `Extension.PostStubIsConsistent` | src/extension.ts:50-55 | for a non-negative clock reading, the padded year and month name the directory, and the date line reads back as the same year, month and day |
| `Text.LastIndexOf` | src/extension.ts:79-80 | `lastIndexOf`: -1 exactly when the character is absent; otherwise a position holding it with none after it |
| `Extension.Preselection` | src/extension.ts:78-81 | the selection starts within the path and ends at -1 or within it |
| `Extension.PreselectionCoversStem` | src/extension.ts:78-81 | the selection starts at the file name (the last `/` piece). When the name has a `.`, it ends where the name's last extension begins, so it covers exactly the stem. Otherwise the end lies before the start |
| `Extension.PreselectionExample` | src/extension.ts:78-81 | for `/a/b/note.md` the selection is (5, 9), i.e. `note` |
| `Extension.RenameTarget` | src/extension.ts:84-86 | a rename is asked for exactly when the answer is present, nonempty and different from the current path, and then its target is that answer |
| `Extension.RenameThis` | src/extension.ts:65-92 | without an active file it shows "No file :-(" and changes nothing. Otherwise it saves the document, then asks. A cancelled, empty or unchanged answer stops there. An existing target fails without touching either file. Otherwise the file is moved to the target and opened |
| `Host.FileSystem.Exists` | src/extension.ts:14-20 | a path exists exactly when the file map holds it |
| `Host.FileSystem.WriteFile` | src/extension.ts:40 | the file map afterwards is the old one with that path set to the content |
| `Host.FileSystem.Rename` | src/extension.ts:89 | a missing source or, without `overwrite`, an existing target is refused and nothing changes; otherwise the file is moved |
| `Host.Moved` | src/extension.ts:89 | after a move the target holds the source's content, the source is gone and every other file is unchanged |
| `Host.MovedKeepsCount` | src/extension.ts:89 | a property of the modelled move, not a promise of the extension: a move to a free path keeps the number of files |
| `Host.MovedBack` | src/extension.ts:89 | a property of the modelled move, not a promise of the extension: moving to a free path and back restores the file map |

## Left out

- Host user interface. `showInformationMessage`, `openTextDocument`,
  `showTextDocument` and `showInputBox` are not modelled as calls. Their
  effect is the command's `Outcome`, and the prompt's answer is a parameter.
- `document.save()` is modelled only as writing the document's text to its
  path. Untitled (never saved) documents and other URI schemes are not
  modelled.
- `Uri.joinPath` and `Uri.from` are modelled as joining strings with `/` in a
  single scheme. Their normalisation (doubled or trailing slashes, `..`) is
  not modelled.
- `exists` catches every failure of `stat`. Here it is membership in the file
  map, so permission errors and other host failures are not modelled.
- Directories are not modelled. The file map holds files only, so a write
  into a directory that does not exist yet is not told apart from any other
  write.
- `new Date()` and its getters. The clock readings are parameters.
- `TextEncoder`. Content is kept as characters, not UTF-8 bytes.
- `async` sequencing, `activate`/`deactivate` and command registration. The
  unused `stream` import is not modelled either.
- Concurrent writers between the existence check and the write. Commands run
  one at a time.
- `CreateUntitled` builds the list of 20 candidate paths before the loop
  (`CandidatePaths`). The source builds each name inside the loop, but the
  names and the order of the probes are the same.
- `Decimal.IntToString` renders every integer exactly. JavaScript's `number` is
  a double: integers beyond 2^53 are not represented exactly (their
  `toString` gives the shortest digits that read back to the same double),
  it switches to exponent notation from 10^21 on, and it also renders
  non-integral numbers. No date component comes near any of these cases.
- `Text.LastIndexOf` and `Extension.Preselection` count positions in Unicode
  scalar values (Dafny's `char`). JavaScript counts UTF-16 code units, so for a
  path holding characters outside the Basic Multilingual Plane (an emoji, say)
  the model's selection positions are smaller than the source's.
