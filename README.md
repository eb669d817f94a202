# gs-dev-tools field relabeller, modelled in Dafny

The program walks a Salesforce metadata checkout and looks at every file whose
path contains `fields`. It decodes each one as a custom-field record
(`SfCustomField`). A record that carries the `x-gs-devobject` marker and has
type `AutoNumber` gets a fresh eight-letter random label. The file is then
re-encoded behind the XML header, written back and staged in git. When the walk
finishes without an error, everything staged is committed as one automated
commit.

The model has six modules, one per part of `main.go`:

- `Basics` (basics.dfy): an option type, bytes, and Go's `strings.Contains`, with
  proofs that it means "occurs at some position" and survives extension.
- `Random` (random.dfy): the 52-letter `charset`, the random source as a class,
  `randomString` as a loop, and `Spell`, the string produced by a given run of
  random indices.
- `Field` (field.dfy): the `SfCustomField` record, the XML header, the codec as
  an injected pair of functions, and the predicates `Eligible` (the file will be
  rewritten) and `Relabelled` (only the label changed, to eight letters).
- `Store` (store.dfy): the files under the root, as a class with `ReadFile` and
  `WriteFile`. The git working tree, as a class with `Add` and `CommitStaged`
  (Go `Worktree.Commit`).
- `Transform` (transform.dfy): `handleFieldFile`. It is written twice: as the
  function `Handle` on an abstract state (`World`: files, staged paths, random
  draws so far), and as the method `HandleFieldFile` on the objects, proved equal
  to `Handle`.
- `Walk` (walk.dfy): the `fs.WalkDir` callback. Its filter is `IsCandidate` and
  one visit is `Visit`. The fail-fast walk is the function `WalkSpec` and the
  method `Walk`, proved equal. `Run` is the walk followed by the commit.

Details of the code the model keeps:

- The commit message is `Automated change to prod GS Pipeline` (main.go:133).
- An error from `xml.MarshalIndent` is returned to the walk and aborts it
  (main.go:70-73). At that point the random label has already been drawn and
  nothing has been written.
- An unreadable walk entry makes the callback call `log.Fatal` (main.go:97-99).
  It is modelled as a `TraversalError` that ends the walk with no commit, which
  is the same end state as any other walk error.

## Model

| member | source | states |
|---|---|---|
| Basics.ContainsIffOccurs | main.go:105 | `strings.Contains(path, "fields")` holds exactly when "fields" occurs at some index of the path (both directions) |
| Basics.ContainsInfix | main.go:105 | the substring test is position-independent: a path keeps containing "fields" whatever surrounds it |
| Random.CharsetAt | main.go:16 | `charset` lists a-z then A-Z, position by position |
| Random.CharsetIsAlphabet | main.go:16 | a character is in `charset` exactly when it is an ASCII letter a-z or A-Z |
| Random.CharsetDistinct | main.go:16 | no letter appears twice in `charset`: different indices give different letters |
| Random.Spell | main.go:29-35 | the string built from `n` draws has length `n`, and its `i`-th byte is `charset` at the `i`-th draw |
| Random.SpellIsLetters | main.go:33 | every byte of a generated string is an ASCII letter |
| Random.SpellDeterminesDraws | main.go:33 | two generated strings of the same length are equal exactly when their sequences of draws (`Draws`) are equal: the sequence of draws is recoverable from the label |
| Random.SpellSplit | main.go:33 | consecutive generated strings use consecutive, non-overlapping stretches of the random source |
| Random.Rand.Intn | main.go:33 | `rand.Intn(len(charset))` returns the next index of the source, which is always in [0, 52), and advances the source by one |
| Random.RandomString | main.go:29-37 | `randomString(n)` makes exactly `n` calls of `rand.Intn` and returns exactly `n` letters, the ones `Spell` names for those draws |
| Store.Written | main.go:77 | `os.WriteFile` replaces the contents of `path` only; an existing file keeps its permission bits and every other file is unchanged |
| Store.FileSystem.ReadFile | main.go:43-47 | `os.ReadFile` gives the contents of an existing file and a read error for a missing one |
| Store.FileSystem.WriteFile | main.go:77 | the file map after the write is `Written` of the one before; the write is assumed to succeed |
| Store.Worktree.Add | main.go:78 | `Add` either stages the path, or returns a staging error and stages nothing |
| Store.Worktree.CommitStaged | main.go:133-136 | with nothing staged and empty commits refused, the commit fails and nothing changes. Otherwise the commit holds the message and every staged path, is appended to the history, and the stage is emptied |
| Transform.NewRecord | main.go:64-68 | the record written back differs from the decoded one only in its label, which is eight ASCII letters |
| Transform.Handle | main.go:39-81 | no file other than `path` changes, and no file is added or removed; permission bits are kept; at most `path` is newly staged; the state changes exactly when the file decodes with the marker set and type "AutoNumber"; a newly staged file starts with the XML header and the call returns nil |
| Transform.HandleFieldFile | main.go:39-81 | the method's new files, stage, random draws and error are exactly those of `Handle`, and it makes no commit |
| Transform.HandleUnreadable | main.go:43-47 | a read failure is returned unchanged, with nothing written or staged |
| Transform.HandleUndecodable | main.go:49-53 | a file that does not decode is a silent success, with nothing written or staged |
| Transform.HandleUnmarked | main.go:55-57 | a record without the marker is a success, with nothing written or staged |
| Transform.HandleNotAutoNumber | main.go:59-62 | a record whose type is not exactly "AutoNumber" is a success, with nothing written or staged |
| Transform.HandleRelabel | main.go:64-80 | on the relabel path, eight draws are taken and only the label changes. An encoding error is returned with no file written. Otherwise the file becomes the XML header plus the encoding, with its permission bits kept. Then either the path is staged and nil is returned, or the staging error is returned and the write stays |
| Transform.StagedIffRelabelled | main.go:64-80 | a path not staged before is staged afterwards exactly when it was relabelled, encoded and accepted by `Add` |
| Transform.RewrittenFileDecodes | main.go:68-80 | if the encoding succeeds and the codec reads back what it writes, the rewritten file decodes to the old record with a new eight-letter label, and is again eligible. This holds also when `Add` then fails: the call returns the staging error, and the rewritten file stays unstaged |
| Transform.RerunRelabelsAgain | main.go:39-81 | if both encodings succeed and read back, a second run on a relabelled file also returns nil and keeps it staged. The file then decodes to the original record with a new label from the next eight draws. Together the two labels are sixteen consecutive draws, so nothing is remembered between runs |
| Walk.Visit | main.go:96-121 | one callback keeps the set of file paths and never unstages; it changes the state only for a candidate entry |
| Walk.WalkSpec | main.go:96-124 | the walk keeps the set of file paths, only adds to the stage, and only advances the random source |
| Walk.Walk | main.go:96-124 | the loop visits entries in order and returns at the first error; its final state and error are exactly those of `WalkSpec`, and it makes no commit |
| Walk.Run | main.go:96-136 | a walk error ends the run with that error and no commit, keeping the files and stage the walk left. After a clean walk with nothing staged, when empty commits are refused, the run ends in that error with no commit. Otherwise exactly one commit is made with the fixed message, holding everything staged, and the stage is emptied |
| Walk.UnderFieldsDirIsCandidate | main.go:101-111 | a non-directory at `dir/fields/.../name` whose base name `name` does not start with '.' passes the filter |
| Walk.WalkTouchesOnlyCandidates | main.go:101-120 | a path that belongs to no candidate entry keeps its file and its staged status through the whole walk |
| Walk.WalkStagesOnlyCandidates | main.go:101-120 | every path the walk stages belongs to a candidate entry and contains "fields" |
| Walk.WalkStopsAtFirstError | main.go:116-122 | once a visit returns an error, later entries have no effect; the walk ends in the state that visit left, and earlier changes stay |
| Walk.WalkSucceedsOnlyIfEveryVisitDoes | main.go:96-124 | a walk that returns nil visited every entry without error |
| Walk.WalkRelabelsFieldFile | main.go:96-120 | a walk over one marked AutoNumber file under `<dir>/fields/` returns nil and takes eight draws. The file becomes the XML header followed by the encoding of the record, where only the label is replaced, by eight letters. Its permission bits are kept and it is staged |
| Walk.WalkSkipsHiddenFile | main.go:109-111 | an entry whose base name starts with '.' is passed over with nothing changed and nil returned, whatever its path (even one containing "fields") and whether or not it is a directory |

## Left out

- XML decoding and encoding (`xml.Unmarshal`, `xml.MarshalIndent`) are a foreign library. They are the injected functions of `Codec`. That the encoding reads back is a hypothesis (`RoundTrips`), not a proved fact.
- go-git is reduced to a set of staged paths and a list of commits. Opening the repository and the working tree (main.go:87-94), `Status` (main.go:126-131) and `CommitObject` (main.go:138-142) are not modelled, and neither are their failures. `Add` failures are given as a fixed set of paths (`unstageable`).
- Store.Worktree.CommitStaged, Walk.Run: the only commit failure modelled is an empty commit refused by go-git (`refusesEmpty`). The test is an empty set of staged paths. go-git also refuses a commit whose staged files equal those of HEAD, and it can fail for other reasons (I/O, a missing author). Those cases are assumed to succeed.
- Directory traversal is a given sequence of entries in walk order. Reads fail only for paths with no file, and `os.WriteFile` is assumed to succeed, since the program ignores its error.
- The random source is an injected stream of indices in [0, 52). Seeding from the clock (main.go:84) and the uniform distribution of `rand.Intn` are not modelled, so the claim that a new label almost never equals the old one is not stated.
- Logging, printing and the process exit of `log.Fatal`/`log.Fatalf`: a fatal error becomes `Outcome.Fatal`.
- `d.Name()[0]` panics on an empty name. Names are never empty here (the `Name` subset type), so the panic is not modelled.
- The absolute path `rootDir + "/" + path` is not modelled: files are keyed by their path relative to the root.
- The tab indentation of the re-encoded document belongs to the encoder and is not modelled.
