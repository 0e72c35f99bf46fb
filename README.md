# BFScanner scan-and-claim, modelled in Dafny

BFScanner walks a directory tree of microscopy data. For every file the walk
reaches, `handleFile` does one of three things:

- It skips the file when an earlier fileset already claimed its absolute path.
- Otherwise it asks Bio-Formats which files make up the dataset that starts at
  that file. A file no reader understands is ignored.
- On success it claims every member file, so that the walk skips those files
  later. It appends the member array to the results list. Then it prints the
  members' paths, relativized against a fixed root and normalized, in the
  order Bio-Formats gave them.

The project has two modules:

- `paths.dfy`, module `PathModel`: the JDK Unix path operations the scanner
  uses. `Parse` is `Paths.get`, `Format` is `toString`, and `Normalize` and
  `Relativize` are `normalize` and `relativize`. `Resolve` is added as the
  partner that undoes a relativization.
- `scanner.dfy`, module `Scanner`: the class `BFScanner`. It holds the claim
  ledger `claimedFiles` (a `set<string>`) and the `results` list. Its methods
  are `HandleFile` and `Walk`, a run of `HandleFile` over the files of a
  walk. The two loops of `handleFile` are the methods `RelativizeAll` and
  `NormalizedStrings`. Lemmas about paths, claims and probes complete the
  module.

The prober is a parameter `prober: string -> Probe`, with three results:

- `Readable(usedFiles)`: `setId` succeeded, and `usedFiles` is what
  `getUsedFiles` returned.
- `NotAFormat`: `setId` threw `FormatException`.
- `ReadFailure`: `setId` threw `IOException`.

The ghost field `probed` records every path handed to the prober. This makes
"skipped without probing" a statement about state.

`HandleFile` ends in one of five `Outcome`s:

- `AlreadyClaimed`: the path was already claimed.
- `Unreadable`: `FormatException`. Nothing changes.
- `ProbeIoError`: `IOException`. Nothing changes, and the walk stops.
- `Emitted(usedFiles, paths)`: the members are claimed and recorded, and
  `paths` are the printed strings.
- `BadMemberPath(usedFiles, error)`: a path exception is thrown in the
  relativize loop. This happens after the claim and the append. The walk
  stops.

The relativization root is a parameter. The source hard-codes the literal
`/Users/dpwrussell/Downloads/TestData` (BFScanner.java:121), not the
`scanDir` field. `Scanner.TestDataRoot` is that path. `TestDataRootText`
shows that its text is the literal, and `TestDataRootIsNormal` shows that it
is in normal form.

The function `Expected(probe, root)` is the outcome that a probe result
determines for an unclaimed file. For a readable fileset it uses
`Describe(root, usedFiles)`: the emitted strings in member order, or the
exception of the first member whose path fails. `DescribeEmits`,
`DescribeStops` and `DescribeUnique` give `Describe` its meaning, and
`HandleFile` is proved to end in `Expected`.

In these places the model follows what the code does:

- An empty `getUsedFiles` array is not treated as unreadable. It claims
  nothing, appends an empty entry to `results` and emits an empty list.
- Member arrays are not filtered against earlier claims. A file can be a
  member of two entries of `results`, and no contract claims the entries are
  disjoint.
- A member whose path cannot be relativized throws an unchecked exception.
  Examples are a relative member path, which has a different type from the
  absolute root, and a path with a NUL character. The exception ends the
  walk after that member's fileset was already claimed and recorded.
- Nothing is submitted to a workflow service. The `startExecution` call is
  commented out, and the descriptor is only printed.

## Model

| member | source | states |
|---|---|---|
| Scanner.Expected | src/main/java/edu/hms/harvard/sorgerlab/minerva/BFScanner.java:87-130 | for an unclaimed path the outcome is never AlreadyClaimed. It claims exactly the members and appends exactly the member array when the probe is readable, even when a member path then throws, and claims and appends nothing otherwise. It stops the walk exactly on an IOException from the probe or a member path that throws |
| Scanner.Describe | src/main/java/edu/hms/harvard/sorgerlab/minerva/BFScanner.java:118-130 | the two loops give either the exception of a failing member or the emitted strings, and on success there is exactly one string per member |
| Scanner.RelativeOf | src/main/java/edu/hms/harvard/sorgerlab/minerva/BFScanner.java:121-122 | relativizing one member against the root fails exactly when the member has a NUL character or is of the other kind (absolute or relative) than the root. A NUL gives the invalid-path error and a kind mismatch gives the different-type error. Otherwise the result is a relative, well-formed path |
| Scanner.EmittedPath | src/main/java/edu/hms/harvard/sorgerlab/minerva/BFScanner.java:121-129 | the emitted string of one member fails under the same condition as RelativeOf. Otherwise it is relative text, which never starts with "/" |
| Scanner.BFScanner.constructor | src/main/java/edu/hms/harvard/sorgerlab/minerva/BFScanner.java:40-47 | a new scanner has no claims, no results and no probes, and keeps its scan directory |
| Scanner.BFScanner.HandleFile | src/main/java/edu/hms/harvard/sorgerlab/minerva/BFScanner.java:81-145 | the outcome is AlreadyClaimed exactly when the path was claimed. In that case nothing changes and nothing is probed. Otherwise the path is probed once and the outcome is `Expected` of its probe result. Claims grow by exactly the members of a successful probe and are never removed. `results` grows by exactly one entry, the member array, appended at the end, and only on success |
| Scanner.BFScanner.Walk | src/main/java/edu/hms/harvard/sorgerlab/minerva/BFScanner.java:72-116 | handleFile runs on each walked file in order until one throws. A file is skipped exactly when it was claimed at the start or by an earlier call. Every member of an earlier successful probe is skipped when reached. Each probed file ends in `Expected` of its probe result. The final claims are the union of all claims, `results` lists every member array in probe order, and `probed` lists exactly the files that were not skipped |
| Scanner.RelativizeAll | src/main/java/edu/hms/harvard/sorgerlab/minerva/BFScanner.java:118-124 | on success there is one relative path per member, in member order, each `Paths.get(root).relativize(Paths.get(member))`. On failure the error is that of the first member that fails, and every earlier member succeeded |
| Scanner.NormalizedStrings | src/main/java/edu/hms/harvard/sorgerlab/minerva/BFScanner.java:127-130 | the emitted list has the same length and order as the relative paths. Element i is the text of the normalized path i, and it parses back to that path, which is in normal form |
| Scanner.ScanDirOf | src/main/java/edu/hms/harvard/sorgerlab/minerva/BFScanner.java:59 | under a UTF-8 path encoding, the scan root fails exactly on a NUL character. Otherwise it is the normalization of the parsed argument and is in normal form |
| Scanner.LaterClaimsSkip | src/main/java/edu/hms/harvard/sorgerlab/minerva/BFScanner.java:87-113 | in any run, a file listed in usedFiles by an earlier successful probe is skipped when the walk reaches it |
| Scanner.ClaimsCover | src/main/java/edu/hms/harvard/sorgerlab/minerva/BFScanner.java:113 | whatever one call claimed stays in the claims of every longer run |
| Scanner.ClaimsAreUnion | src/main/java/edu/hms/harvard/sorgerlab/minerva/BFScanner.java:113 | a path is in a run's claims exactly when some call of the run claimed it |
| Scanner.ProbedAtMostOnce | src/main/java/edu/hms/harvard/sorgerlab/minerva/BFScanner.java:87-101 | when the walk reaches each file once, each file is handed to the prober at most once, and only walked files are probed |
| Scanner.DescribeEmits | src/main/java/edu/hms/harvard/sorgerlab/minerva/BFScanner.java:118-130 | when no member path throws, the emitted list has one string per member, in member order, and string i is the normalized relative path of member i |
| Scanner.DescribeStops | src/main/java/edu/hms/harvard/sorgerlab/minerva/BFScanner.java:118-124 | when a member path throws, the exception is that of the first member that fails, and every earlier member succeeded |
| Scanner.DescribeUnique | src/main/java/edu/hms/harvard/sorgerlab/minerva/BFScanner.java:118-130 | any result that meets the two loops' contract is Describe's, so the probe result fixes how handleFile ends |
| Scanner.WalkFacts | src/main/java/edu/hms/harvard/sorgerlab/minerva/BFScanner.java:72-116 | in a run of handleFile calls, only the last call may throw, a file is skipped exactly when the claims made before it hold its path, every other file ends in `Expected`, and a file claimed by an earlier call is skipped |
| Scanner.EmittedIsNormal | src/main/java/edu/hms/harvard/sorgerlab/minerva/BFScanner.java:129 | every emitted string parses to a relative path in normal form: no "." and no name followed by "..". A leading run of ".." may remain |
| Scanner.EmittedRoundTrip | src/main/java/edu/hms/harvard/sorgerlab/minerva/BFScanner.java:119-129 | for a normal absolute root and any absolute member, inside the root or not, the emitted string parses, and resolving it against the root and normalizing gives the normalized member. A member in normal form comes back exactly |
| Scanner.EmittedUnderRoot | src/main/java/edu/hms/harvard/sorgerlab/minerva/BFScanner.java:119-129 | a normal member under the root is emitted as its names below the root, joined by "/", with no ".." |
| Scanner.TestDataRootText | src/main/java/edu/hms/harvard/sorgerlab/minerva/BFScanner.java:121 | the fixed root is the absolute path written /Users/dpwrussell/Downloads/TestData |
| Scanner.TestDataRootIsNormal | src/main/java/edu/hms/harvard/sorgerlab/minerva/BFScanner.java:121 | the fixed root is in normal form, so the round-trip lemmas apply to it |
| PathModel.Segments | src/main/java/edu/hms/harvard/sorgerlab/minerva/BFScanner.java:122 | the name elements of a string are non-empty and contain no '/'. With no NUL in the input they are valid names |
| PathModel.Parse | src/main/java/edu/hms/harvard/sorgerlab/minerva/BFScanner.java:122 | under a UTF-8 path encoding, Paths.get fails exactly on a NUL character. The path is absolute exactly when the text starts with '/', and its names are well formed |
| PathModel.Format | src/main/java/edu/hms/harvard/sorgerlab/minerva/BFScanner.java:129 | the text of an absolute path starts with "/", and the text of a well-formed relative path does not |
| PathModel.ParseFormat | src/main/java/edu/hms/harvard/sorgerlab/minerva/BFScanner.java:129 | parsing the text of a well-formed path gives the path back |
| PathModel.SegmentsJoin | src/main/java/edu/hms/harvard/sorgerlab/minerva/BFScanner.java:129 | splitting names joined by "/" gives the names back |
| PathModel.Normalize | src/main/java/edu/hms/harvard/sorgerlab/minerva/BFScanner.java:129 | normalize keeps the path's kind and always gives a path in normal form, well formed when its input was |
| PathModel.NormalizeFixesNormal | src/main/java/edu/hms/harvard/sorgerlab/minerva/BFScanner.java:129 | a path in normal form is its own normalization |
| PathModel.NormalizeIdempotent | src/main/java/edu/hms/harvard/sorgerlab/minerva/BFScanner.java:129 | normalizing twice is normalizing once |
| PathModel.Relativize | src/main/java/edu/hms/harvard/sorgerlab/minerva/BFScanner.java:121-122 | relativize fails exactly when one path is absolute and the other is not. Otherwise the result is relative, and well formed when the target is |
| PathModel.RelativizeUnderRoot | src/main/java/edu/hms/harvard/sorgerlab/minerva/BFScanner.java:121-122 | a path under the root relativizes to exactly its names below the root |
| PathModel.RelativizeIsNormal | src/main/java/edu/hms/harvard/sorgerlab/minerva/BFScanner.java:121-122 | relativizing a normal absolute path gives a normal relative path |
| PathModel.ResolveRelativize | src/main/java/edu/hms/harvard/sorgerlab/minerva/BFScanner.java:121-122 | for a normal absolute root and a normal absolute target, resolving the relativization against the root and normalizing gives the target back exactly |
| PathModel.ResolveNormalizedRelativize | src/main/java/edu/hms/harvard/sorgerlab/minerva/BFScanner.java:121-129 | for a normal absolute root and any absolute target, resolving the normalized relativization against the root and normalizing gives the normalized target |

## Left out

- Bio-Formats (`ImageReader.setId`, `getUsedFiles`, `ClassList`, `ZipReader`, lines 91-109) is a foreign library. It is the `prober` parameter, and which readers are active is part of the prober.
- The reader handle opened by `setId` is never closed in the source. Resource handling is not modelled.
- Apache `DirectoryWalker` (lines 33, 73) decides which files are visited and in what order. `Walk` takes that order as its `files` argument. Directory handling and the `depth` argument are not modelled.
- `results` is a list that `main` creates and passes to every call (lines 69, 73, 116). It is modelled as a field of the scanner, which is equivalent because `main` passes one list.
- The JSON object construction and `System.out.println` (lines 127-134, 143) are serialization and output. Only the ordered list of path strings is modelled.
- The AWS Step Functions client (lines 37-38) and the commented-out `startExecution` (lines 136-141) are network calls, and the call is not active.
- The argument check, `Files.isDirectory`, `System.exit` and logging in `main` (lines 49-79) are process plumbing. Only the normalization of the scan root (line 59) is modelled.
- Relativize: models the name-by-name algorithm of the JDK 8 Unix path implementation. From JDK 9 on, `relativize` first normalizes both paths when either holds a "." or ".." element, so its results differ from the model whenever the root or a member path is not in normal form (for example the member `/Users/x/../dpwrussell/Downloads/TestData/a`). For a normal root, such as the fixed one, and normal members, the two agree.
- Parse: models Unix path syntax only. Windows path rules are not modelled.
- Parse: assumes a UTF-8 path encoding and no Unicode normalization. Under another encoding `Paths.get` also throws `InvalidPathException` on characters it cannot map, and on macOS the file system's NFD/NFC normalization can change the text that is emitted; neither is modelled.
