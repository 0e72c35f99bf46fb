/**
 * The scan-and-claim step of BFScanner: for each file the directory walk
 * reaches, skip it when an earlier fileset already claimed it, otherwise ask
 * the format prober for the fileset's member files, claim them all, record
 * them, and emit their paths relative to a fixed root.
 */
module Scanner {
  import opened PathModel

  /**
   * The directory the emitted paths are made relative to. The source fixes it
   * to a literal; TestDataRootText shows this is the path with that text.
   */
  const TestDataRoot: Path := Path(true, ["Users", "dpwrussell", "Downloads", "TestData"])

  /** What Bio-Formats' `setId` followed by `getUsedFiles` reports for one path. */
  datatype Probe =
    | Readable(usedFiles: seq<string>)  // setId succeeded; getUsedFiles' array
    | NotAFormat                        // setId threw FormatException
    | ReadFailure                       // setId threw IOException

  /** How one call of handleFile ends. */
  datatype Outcome =
    | AlreadyClaimed                                       // returned without probing
    | Unreadable                                           // FormatException, logged and ignored
    | Emitted(usedFiles: seq<string>, paths: seq<string>)  // the "paths" array that is printed
    | ProbeIoError                                         // IOException out of handleFile
    | BadMemberPath(usedFiles: seq<string>, error: PathError)  // a path exception out of the relativize loop
  {
    /** The call threw, so the walk ends with it. */
    predicate Aborts() {
      ProbeIoError? || BadMemberPath?
    }

    /** The paths this call added to the claimed set. */
    function Claimed(): set<string> {
      if Emitted? || BadMemberPath? then Elements(usedFiles) else {}
    }

    /** What this call appended to the results list. */
    function Appended(): seq<seq<string>> {
      if Emitted? || BadMemberPath? then [usedFiles] else []
    }
  }

  function Elements(s: seq<string>): set<string> {
    set x | x in s
  }

  /** `Paths.get(root).relativize(Paths.get(member))`, for one member file. */
  function RelativeOf(root: Path, member: string): (r: Result<Path>)
    ensures r.Err? <==> '\0' in member || root.absolute != (member != [] && member[0] == '/')
    ensures r.Err? && '\0' in member ==> r.error.NulCharacter?
    ensures r.Err? && '\0' !in member ==> r.error == DifferentType
    ensures r.Ok? ==> !r.value.absolute && WellFormed(r.value)
  {
    match Parse(member)
    case Err(e) => Err(e)
    case Ok(p) => Relativize(root, p)
  }

  /** The text the source emits for a relative path: its normalization, as a string. */
  function Text(p: Path): string {
    Format(Normalize(p))
  }

  /** The string the source emits for one member file, or the exception it throws. */
  function EmittedPath(root: Path, member: string): (r: Result<string>)
    ensures r.Err? <==> '\0' in member || root.absolute != (member != [] && member[0] == '/')
    ensures r.Ok? ==> r.value == [] || r.value[0] != '/'
  {
    match RelativeOf(root, member)
    case Err(e) => Err(e)
    case Ok(rel) => Ok(Text(rel))
  }

  /** `e` is what the relativize loop throws: the exception of the first member that fails. */
  ghost predicate FirstBadMember(root: Path, usedFiles: seq<string>, e: PathError) {
    exists i :: 0 <= i < |usedFiles| && RelativeOf(root, usedFiles[i]) == Err(e)
      && forall j :: 0 <= j < i ==> RelativeOf(root, usedFiles[j]).Ok?
  }

  /** EmittedPath for the members of one fileset, relativized against `root`. */
  function EmitFor(root: Path): string -> Result<string> {
    member => EmittedPath(root, member)
  }

  /** `f` applied to each element of `xs`, in order. */
  function Map<A, B>(f: A -> B, xs: seq<A>): seq<B> {
    if xs == [] then [] else Map(f, xs[..|xs| - 1]) + [f(xs[|xs| - 1])]
  }

  /** Map keeps the length, and element i is `f` of element i. */
  lemma {:induction false} MapAt<A, B>(f: A -> B, xs: seq<A>)
    ensures |Map(f, xs)| == |xs|
    ensures forall i :: 0 <= i < |xs| ==> Map(f, xs)[i] == f(xs[i])
  {
    if xs != [] {
      var init := xs[..|xs| - 1];
      MapAt(f, init);
      assert forall i :: 0 <= i < |init| ==> init[i] == xs[i];
    }
  }

  /** The first exception among `rs`, or else all their values, in order. */
  function Collect<T>(rs: seq<Result<T>>): Result<seq<T>> {
    if rs == [] then Ok([])
    else
      match rs[0]
      case Err(e) => Err(e)
      case Ok(v) =>
        match Collect(rs[1..])
        case Err(e) => Err(e)
        case Ok(vs) => Ok([v] + vs)
  }

  /**
   * What the two loops of handleFile make of the member files: the emitted
   * strings in member order, or the exception of the first member whose path
   * fails. DescribeEmits, DescribeStops and DescribeUnique characterize it.
   */
  function Describe(root: Path, usedFiles: seq<string>): (r: Result<seq<string>>)
    ensures r.Ok? ==> |r.value| == |usedFiles|
  {
    MapAt(EmitFor(root), usedFiles);
    CollectOk(Map(EmitFor(root), usedFiles));
    Collect(Map(EmitFor(root), usedFiles))
  }

  /** How handleFile ends for an unclaimed path whose probe reported `probe`. */
  function Expected(probe: Probe, root: Path): (r: Outcome)
    ensures r != AlreadyClaimed
    ensures r.Claimed() == (if probe.Readable? then Elements(probe.usedFiles) else {})
    ensures r.Appended() == (if probe.Readable? then [probe.usedFiles] else [])
    ensures r.Aborts() <==> probe.ReadFailure? || (probe.Readable? && Describe(root, probe.usedFiles).Err?)
  {
    match probe
    case NotAFormat => Unreadable
    case ReadFailure => ProbeIoError
    case Readable(used) =>
      match Describe(root, used)
      case Ok(paths) => Emitted(used, paths)
      case Err(e) => BadMemberPath(used, e)
  }

  /** The relativize loop: one relative path per member file, in order. */
  method RelativizeAll(root: Path, usedFiles: seq<string>) returns (r: Result<seq<Path>>)
    ensures r.Ok? ==> |r.value| == |usedFiles|
    ensures r.Ok? ==> forall i :: 0 <= i < |usedFiles| ==> RelativeOf(root, usedFiles[i]) == Ok(r.value[i])
    ensures r.Err? ==> FirstBadMember(root, usedFiles, r.error)
  {
    var usedPaths: seq<Path> := [];
    var i := 0;
    while i < |usedFiles|
      invariant 0 <= i <= |usedFiles| && |usedPaths| == i
      invariant forall j :: 0 <= j < i ==> RelativeOf(root, usedFiles[j]) == Ok(usedPaths[j])
    {
      var member := Parse(usedFiles[i]);
      if member.Err? {
        return Err(member.error);
      }
      var rel := Relativize(root, member.value);
      if rel.Err? {
        return Err(rel.error);
      }
      usedPaths := usedPaths + [rel.value];
      i := i + 1;
    }
    return Ok(usedPaths);
  }

  /**
   * The JSON array loop: each path normalized and turned into its string, in
   * order; every string reads back as a path in normal form.
   */
  method NormalizedStrings(usedPaths: seq<Path>) returns (paths: seq<string>)
    ensures |paths| == |usedPaths|
    ensures forall i :: 0 <= i < |usedPaths| ==> paths[i] == Format(Normalize(usedPaths[i]))
    ensures forall i :: 0 <= i < |usedPaths| && WellFormed(usedPaths[i]) ==>
      Parse(paths[i]) == Ok(Normalize(usedPaths[i])) && IsNormal(Parse(paths[i]).value)
  {
    paths := [];
    var i := 0;
    while i < |usedPaths|
      invariant 0 <= i <= |usedPaths| && paths == Map(Text, usedPaths[..i])
    {
      assert usedPaths[..i + 1][..i] == usedPaths[..i];
      paths := paths + [Text(usedPaths[i])];
      i := i + 1;
    }
    assert usedPaths[..i] == usedPaths;
    MapAt(Text, usedPaths);
    TextsParseBack(usedPaths, paths);
  }

  /** The text of each normalized well-formed path parses back to it. */
  lemma TextsParseBack(usedPaths: seq<Path>, paths: seq<string>)
    requires |paths| == |usedPaths|
    requires forall i :: 0 <= i < |usedPaths| ==> paths[i] == Format(Normalize(usedPaths[i]))
    ensures forall i :: 0 <= i < |usedPaths| && WellFormed(usedPaths[i]) ==>
      Parse(paths[i]) == Ok(Normalize(usedPaths[i])) && IsNormal(Parse(paths[i]).value)
  {
    forall i | 0 <= i < |usedPaths| && WellFormed(usedPaths[i])
      ensures Parse(paths[i]) == Ok(Normalize(usedPaths[i]))
    {
      ParseFormat(Normalize(usedPaths[i]));
    }
  }

  /** `Paths.get(args[0]).normalize()`, the scan root of main. */
  function ScanDirOf(arg: string): (r: Result<Path>)
    ensures r.Err? <==> '\0' in arg
    ensures r.Ok? ==> IsNormal(r.value) && WellFormed(r.value)
    ensures r.Ok? ==> Parse(arg).Ok? && Normalize(Parse(arg).value) == r.value
  {
    match Parse(arg)
    case Err(e) => Err(e)
    case Ok(p) => Ok(Normalize(p))
  }

  // ---------------------------------------------------------------------------
  // Walk-level bookkeeping
  // ---------------------------------------------------------------------------

  /** Everything a run of calls claimed. */
  ghost function Claims(os: seq<Outcome>): set<string> {
    if os == [] then {} else Claims(os[..|os| - 1]) + os[|os| - 1].Claimed()
  }

  /** Everything a run of calls appended to the results list, in order. */
  ghost function Members(os: seq<Outcome>): seq<seq<string>> {
    if os == [] then [] else Members(os[..|os| - 1]) + os[|os| - 1].Appended()
  }

  /** The walked files that were handed to the prober, in order. */
  ghost function ProbedPaths(files: seq<string>, os: seq<Outcome>): seq<string>
    requires |files| == |os|
  {
    if os == [] then []
    else
      var n := |os| - 1;
      ProbedPaths(files[..n], os[..n]) + (if os[n] == AlreadyClaimed then [] else [files[n]])
  }

  class BFScanner {
    /** Absolute paths attributed to a fileset so far; never shrinks. */
    var claimedFiles: set<string>
    /** The member arrays of every successful probe, in the order of the probes. */
    var results: seq<seq<string>>
    const scanDir: Path
    /** Every path handed to the prober so far (the calls to `setId`). */
    ghost var probed: seq<string>

    constructor (scanDir: Path)
      ensures this.scanDir == scanDir
      ensures claimedFiles == {} && results == [] && probed == []
    {
      this.scanDir := scanDir;
      claimedFiles := {};
      results := [];
      probed := [];
    }

    /**
     * handleFile for the file whose absolute path is `absPath`. A claimed path
     * is skipped without probing; a failed probe changes nothing; a successful
     * probe claims every member, appends the member array to `results`, then
     * builds the relative paths, which may still throw.
     */
    method HandleFile(absPath: string, prober: string -> Probe, root: Path) returns (outcome: Outcome)
      modifies this
      ensures outcome == AlreadyClaimed <==> absPath in old(claimedFiles)
      ensures absPath in old(claimedFiles) ==> probed == old(probed)
      ensures absPath !in old(claimedFiles) ==>
        probed == old(probed) + [absPath] && outcome == Expected(prober(absPath), root)
      ensures claimedFiles == old(claimedFiles) + outcome.Claimed()
      ensures results == old(results) + outcome.Appended()
    {
      if absPath in claimedFiles {
        return AlreadyClaimed;
      }
      probed := probed + [absPath];
      match prober(absPath)
      case NotAFormat =>
        return Unreadable;
      case ReadFailure =>
        return ProbeIoError;
      case Readable(usedFiles) =>
        claimedFiles := claimedFiles + Elements(usedFiles);
        results := results + [usedFiles];
        var usedPaths := RelativizeAll(root, usedFiles);
        if usedPaths.Err? {
          DescribeUnique(root, usedFiles, Err(usedPaths.error));
          return BadMemberPath(usedFiles, usedPaths.error);
        }
        var paths := NormalizedStrings(usedPaths.value);
        DescribeUnique(root, usedFiles, Ok(paths));
        return Emitted(usedFiles, paths);
    }

    /**
     * The directory walk, given as the sequence of absolute paths it reaches:
     * handleFile on each in turn, until one throws.
     */
    method Walk(files: seq<string>, prober: string -> Probe, root: Path) returns (outcomes: seq<Outcome>)
      modifies this
      ensures |outcomes| <= |files|
      ensures forall j :: 0 <= j < |outcomes| - 1 ==> !outcomes[j].Aborts()
      ensures |outcomes| < |files| ==> outcomes != [] && outcomes[|outcomes| - 1].Aborts()
      ensures forall j :: 0 <= j < |outcomes| ==>
        (outcomes[j] == AlreadyClaimed <==> files[j] in old(claimedFiles) + Claims(outcomes[..j]))
      ensures forall j :: 0 <= j < |outcomes| && outcomes[j] != AlreadyClaimed ==>
        outcomes[j] == Expected(prober(files[j]), root)
      ensures forall i, j :: 0 <= i < j < |outcomes| && files[j] in outcomes[i].Claimed() ==>
        outcomes[j] == AlreadyClaimed
      ensures claimedFiles == old(claimedFiles) + Claims(outcomes)
      ensures results == old(results) + Members(outcomes)
      ensures probed == old(probed) + ProbedPaths(files[..|outcomes|], outcomes)
    {
      ghost var fate := (f: string) => Expected(prober(f), root);
      outcomes := [];
      var stopped := false;
      while |outcomes| < |files| && !stopped
        invariant RunSoFar(old(claimedFiles), files, fate, outcomes)
        invariant stopped <==> outcomes != [] && outcomes[|outcomes| - 1].Aborts()
        invariant claimedFiles == old(claimedFiles) + Claims(outcomes)
        invariant results == old(results) + Members(outcomes)
        invariant probed == old(probed) + ProbedPaths(files[..|outcomes|], outcomes)
        decreases |files| - |outcomes|
      {
        outcomes := WalkStep(old(claimedFiles), old(results), old(probed), fate, files, prober, root, outcomes);
        stopped := outcomes[|outcomes| - 1].Aborts();
      }
      WalkFacts(old(claimedFiles), files, prober, root, fate, outcomes);
    }

    /** handleFile on the next walked file, extending the run `outcomes` by one. */
    method WalkStep(ghost claimed0: set<string>, ghost results0: seq<seq<string>>, ghost probed0: seq<string>,
                    ghost fate: string -> Outcome, files: seq<string>, prober: string -> Probe, root: Path, outcomes: seq<Outcome>)
      returns (next: seq<Outcome>)
      requires forall f :: fate(f) == Expected(prober(f), root)
      requires RunSoFar(claimed0, files, fate, outcomes)
      requires |outcomes| < |files| && (outcomes == [] || !outcomes[|outcomes| - 1].Aborts())
      requires claimedFiles == claimed0 + Claims(outcomes)
      requires results == results0 + Members(outcomes)
      requires probed == probed0 + ProbedPaths(files[..|outcomes|], outcomes)
      modifies this
      ensures |next| == |outcomes| + 1 && next[..|outcomes|] == outcomes
      ensures RunSoFar(claimed0, files, fate, next)
      ensures claimedFiles == claimed0 + Claims(next)
      ensures results == results0 + Members(next)
      ensures probed == probed0 + ProbedPaths(files[..|next|], next)
    {
      var file := files[|outcomes|];
      var o := HandleFile(file, prober, root);
      next := outcomes + [o];
      RunTotalsExtend(claimed0, results0, probed0, files, outcomes, o);
      assert next[..|outcomes|] == outcomes;
      assert StepOK(claimed0 + Claims(outcomes), file, fate, o);
    }
  }

  /**
   * handleFile on `file`, made while `claimed` are the claims, can end in `o`:
   * it skips exactly a claimed file, and any other file ends as `fate` says.
   */
  ghost predicate StepOK(claimed: set<string>, file: string, fate: string -> Outcome, o: Outcome) {
    && (o == AlreadyClaimed <==> file in claimed)
    && (o != AlreadyClaimed ==> o == fate(file))
  }

  /**
   * `os` is how handleFile ended on the first |os| walked files, starting from
   * the claims `claimed0`: each call is a StepOK made from the claims of the
   * calls before it, and no call but the last threw.
   */
  ghost predicate RunSoFar(claimed0: set<string>, files: seq<string>, fate: string -> Outcome, os: seq<Outcome>)
    decreases |os|
  {
    && |os| <= |files|
    && (os != [] ==>
          var n := |os| - 1;
          && RunSoFar(claimed0, files, fate, os[..n])
          && (n > 0 ==> !os[n - 1].Aborts())
          && StepOK(claimed0 + Claims(os[..n]), files[n], fate, os[n]))
  }

  /** The facts a run carries for every one of its calls. */
  lemma {:induction false} RunFacts(claimed0: set<string>, files: seq<string>, fate: string -> Outcome, os: seq<Outcome>)
    requires RunSoFar(claimed0, files, fate, os)
    ensures |os| <= |files|
    ensures forall j :: 0 <= j < |os| - 1 ==> !os[j].Aborts()
    ensures forall j :: 0 <= j < |os| ==> StepOK(claimed0 + Claims(os[..j]), files[j], fate, os[j])
    decreases |os|
  {
    if os != [] {
      var n := |os| - 1;
      var before := os[..n];
      RunFacts(claimed0, files, fate, before);
      forall j | 0 <= j < |os|
        ensures StepOK(claimed0 + Claims(os[..j]), files[j], fate, os[j])
      {
        if j < n {
          assert before[..j] == os[..j];
          assert before[j] == os[j];
        }
      }
    }
  }

  /** What a run of handleFile calls promises about each of its calls. */
  lemma WalkFacts(claimed0: set<string>, files: seq<string>, prober: string -> Probe, root: Path,
                  fate: string -> Outcome, os: seq<Outcome>)
    requires forall f :: fate(f) == Expected(prober(f), root)
    requires RunSoFar(claimed0, files, fate, os)
    ensures |os| <= |files|
    ensures forall j :: 0 <= j < |os| - 1 ==> !os[j].Aborts()
    ensures forall j :: 0 <= j < |os| ==> (os[j] == AlreadyClaimed <==> files[j] in claimed0 + Claims(os[..j]))
    ensures forall j :: 0 <= j < |os| && os[j] != AlreadyClaimed ==> os[j] == Expected(prober(files[j]), root)
    ensures forall i, j :: 0 <= i < j < |os| && files[j] in os[i].Claimed() ==> os[j] == AlreadyClaimed
  {
    RunFacts(claimed0, files, fate, os);
    LaterClaimsSkip(claimed0, files, fate, os);
    forall j | 0 <= j < |os|
      ensures os[j] == AlreadyClaimed <==> files[j] in claimed0 + Claims(os[..j])
      ensures os[j] != AlreadyClaimed ==> os[j] == Expected(prober(files[j]), root)
    {
      assert StepOK(claimed0 + Claims(os[..j]), files[j], fate, os[j]);
    }
  }

  /** One more handleFile call extends the claims, results and probes of a run. */
  lemma {:induction false} RunTotalsExtend(claimed0: set<string>, results0: seq<seq<string>>, probed0: seq<string>,
                                           files: seq<string>, os: seq<Outcome>, o: Outcome)
    requires |os| < |files|
    ensures claimed0 + Claims(os + [o]) == claimed0 + Claims(os) + o.Claimed()
    ensures results0 + Members(os + [o]) == results0 + Members(os) + o.Appended()
    ensures probed0 + ProbedPaths(files[..|os| + 1], os + [o])
      == probed0 + ProbedPaths(files[..|os|], os) + (if o == AlreadyClaimed then [] else [files[|os|]])
  {
    var n := |os|;
    assert (os + [o])[..n] == os;
    assert files[..n + 1][..n] == files[..n];
  }

  /** In a run, a file that an earlier call claimed is skipped. */
  lemma LaterClaimsSkip(claimed0: set<string>, files: seq<string>, fate: string -> Outcome, os: seq<Outcome>)
    requires RunSoFar(claimed0, files, fate, os)
    ensures forall i, j :: 0 <= i < j < |os| && files[j] in os[i].Claimed() ==> os[j] == AlreadyClaimed
  {
    RunFacts(claimed0, files, fate, os);
    forall i, j | 0 <= i < j < |os| && files[j] in os[i].Claimed()
      ensures os[j] == AlreadyClaimed
    {
      assert StepOK(claimed0 + Claims(os[..j]), files[j], fate, os[j]);
      assert os[..j][i] == os[i];
      ClaimsCover(os[..j], i);
    }
  }

  /** Whatever one call claimed is in the claims of every run that contains it. */
  lemma {:induction false} ClaimsCover(os: seq<Outcome>, i: nat)
    requires i < |os|
    ensures os[i].Claimed() <= Claims(os)
  {
    var n := |os| - 1;
    if i < n {
      assert os[..n][i] == os[i];
      ClaimsCover(os[..n], i);
    }
  }

  /** The claims of a run are exactly the union of what each call claimed. */
  lemma {:induction false} ClaimsAreUnion(os: seq<Outcome>, x: string)
    ensures x in Claims(os) <==> exists i :: 0 <= i < |os| && x in os[i].Claimed()
  {
    if os != [] {
      var n := |os| - 1;
      ClaimsAreUnion(os[..n], x);
      if x in Claims(os[..n]) {
        var i :| 0 <= i < n && x in os[..n][i].Claimed();
        assert os[..n][i] == os[i];
      }
      if exists i :: 0 <= i < |os| && x in os[i].Claimed() {
        var i :| 0 <= i < |os| && x in os[i].Claimed();
        if i < n {
          assert os[..n][i] == os[i];
        }
      }
    }
  }

  /**
   * A walk that reaches each file once hands each file to the prober at most
   * once, and hands it nothing but walked files.
   */
  lemma {:induction false} ProbedAtMostOnce(files: seq<string>, os: seq<Outcome>)
    requires |files| == |os|
    requires forall i, j :: 0 <= i < j < |files| ==> files[i] != files[j]
    ensures forall x :: x in ProbedPaths(files, os) ==> x in files
    ensures forall i, j :: 0 <= i < j < |ProbedPaths(files, os)| ==>
      ProbedPaths(files, os)[i] != ProbedPaths(files, os)[j]
  {
    if os != [] {
      var n := |os| - 1;
      var before := ProbedPaths(files[..n], os[..n]);
      ProbedAtMostOnce(files[..n], os[..n]);
      assert forall x :: x in before ==> x in files[..n];
      assert files[n] !in files[..n];
      assert forall x :: x in files[..n] ==> x in files;
    }
  }

  /** When Collect succeeds, it holds the value of each result, in order. */
  lemma {:induction false} CollectOk<T>(rs: seq<Result<T>>)
    ensures var r := Collect(rs);
      r.Ok? ==> |r.value| == |rs| && forall i :: 0 <= i < |rs| ==> rs[i] == Ok(r.value[i])
  {
    if rs != [] && Collect(rs).Ok? {
      var tail := rs[1..];
      CollectOk(tail);
      assert forall i :: 0 < i < |rs| ==> rs[i] == tail[i - 1];
    }
  }

  /** When Collect fails, it gives the exception of the first failing result. */
  lemma {:induction false} CollectErr<T>(rs: seq<Result<T>>)
    ensures var r := Collect(rs);
      r.Err? ==> exists i :: 0 <= i < |rs| && rs[i] == Err(r.error) && forall j :: 0 <= j < i ==> rs[j].Ok?
  {
    var r := Collect(rs);
    if rs != [] && r.Err? && rs[0].Ok? {
      var tail := rs[1..];
      CollectErr(tail);
      var i :| 0 <= i < |tail| && tail[i] == Err(r.error) && forall j :: 0 <= j < i ==> tail[j].Ok?;
      assert forall j :: 0 < j <= i ==> rs[j] == tail[j - 1];
      assert rs[i + 1] == Err(r.error);
    }
  }

  /** When Describe succeeds, it emits EmittedPath of each member, in member order. */
  lemma DescribeEmits(root: Path, usedFiles: seq<string>)
    ensures var r := Describe(root, usedFiles);
      r.Ok? ==> |r.value| == |usedFiles| && forall i :: 0 <= i < |usedFiles| ==> EmittedPath(root, usedFiles[i]) == Ok(r.value[i])
  {
    var rs := Map(EmitFor(root), usedFiles);
    MapAt(EmitFor(root), usedFiles);
    CollectOk(rs);
  }

  /** When Describe fails, it gives the exception of the first member whose path fails. */
  lemma DescribeStops(root: Path, usedFiles: seq<string>)
    ensures var r := Describe(root, usedFiles); r.Err? ==> FirstBadMember(root, usedFiles, r.error)
  {
    var rs := Map(EmitFor(root), usedFiles);
    MapAt(EmitFor(root), usedFiles);
    CollectErr(rs);
    var r := Collect(rs);
    if r.Err? {
      var i :| 0 <= i < |rs| && rs[i] == Err(r.error) && forall j :: 0 <= j < i ==> rs[j].Ok?;
      assert RelativeOf(root, usedFiles[i]) == Err(r.error);
      forall j | 0 <= j < i
        ensures RelativeOf(root, usedFiles[j]).Ok?
      {
        assert rs[j].Ok?;
      }
    }
  }

  /** Any result that meets the loops' contract is Describe's. */
  lemma DescribeUnique(root: Path, usedFiles: seq<string>, r: Result<seq<string>>)
    requires r.Ok? ==> |r.value| == |usedFiles|
    requires r.Ok? ==> forall i :: 0 <= i < |usedFiles| ==> EmittedPath(root, usedFiles[i]) == Ok(r.value[i])
    requires r.Err? ==> FirstBadMember(root, usedFiles, r.error)
    ensures Describe(root, usedFiles) == r
  {
    DescribeEmits(root, usedFiles);
    DescribeStops(root, usedFiles);
    var d := Describe(root, usedFiles);
    if r.Err? {
      var i :| 0 <= i < |usedFiles| && RelativeOf(root, usedFiles[i]) == Err(r.error)
        && forall j :: 0 <= j < i ==> RelativeOf(root, usedFiles[j]).Ok?;
      var k :| 0 <= k < |usedFiles| && RelativeOf(root, usedFiles[k]) == Err(d.error)
        && forall j :: 0 <= j < k ==> RelativeOf(root, usedFiles[j]).Ok?;
      assert i == k;
    } else {
      assert d.value == r.value;
    }
  }

  /** Every emitted path reads back as a relative path in normal form. */
  lemma EmittedIsNormal(root: Path, member: string)
    requires EmittedPath(root, member).Ok?
    ensures var e := EmittedPath(root, member).value;
      Parse(e).Ok? && !Parse(e).value.absolute && IsNormal(Parse(e).value)
  {
    var rel := RelativeOf(root, member).value;
    ParseFormat(Normalize(rel));
  }

  /**
   * For an absolute member and a normal absolute root, resolving the emitted
   * path against the root and normalizing gives the normalized member, whether
   * or not the member lies under the root; a member in normal form comes back
   * exactly.
   */
  lemma EmittedRoundTrip(root: Path, member: string)
    requires root.absolute && IsNormal(root)
    requires Parse(member).Ok? && Parse(member).value.absolute
    ensures EmittedPath(root, member).Ok?
    ensures var e := EmittedPath(root, member).value;
      Parse(e).Ok? && Normalize(Resolve(root, Parse(e).value)) == Normalize(Parse(member).value)
    ensures var e := EmittedPath(root, member).value;
      IsNormal(Parse(member).value) ==> Parse(e).Ok? && Normalize(Resolve(root, Parse(e).value)) == Parse(member).value
  {
    var m := Parse(member).value;
    var rel := Relativize(root, m).value;
    ParseFormat(Normalize(rel));
    ResolveNormalizedRelativize(root, m);
    if IsNormal(m) {
      NormalizeFixesNormal(m);
    }
  }

  /**
   * A normal member under the root is emitted as its names below the root,
   * joined by "/", with no "..".
   */
  lemma EmittedUnderRoot(root: Path, member: string)
    requires root.absolute
    requires Parse(member).Ok? && Parse(member).value.absolute && IsNormal(Parse(member).value)
    requires var ns := Parse(member).value.names;
      |root.names| <= |ns| && root.names == ns[..|root.names|]
    ensures EmittedPath(root, member) == Ok(Join(Parse(member).value.names[|root.names|..]))
  {
    var m := Parse(member).value;
    var rel := Path(false, m.names[|root.names|..]);
    RelativizeUnderRoot(root, m);
    RelativizeIsNormal(root, m);
    NormalizeFixesNormal(rel);
    assert Format(rel) == "" + Join(rel.names) == Join(rel.names);
  }

  /** The hard-coded root is the absolute path written "/Users/dpwrussell/Downloads/TestData". */
  lemma TestDataRootText()
    ensures Format(TestDataRoot) == "/Users/dpwrussell/Downloads/TestData"
  {
    JoinFour("Users", "dpwrussell", "Downloads", "TestData");
    RootLiteral();
  }

  /** The pieces of the fixed root's text, put together, are the literal itself. */
  lemma RootLiteral()
    ensures "/" + ("Users" + ("/" + ("dpwrussell" + ("/" + ("Downloads" + ("/" + "TestData"))))))
      == "/Users/dpwrussell/Downloads/TestData"
  {
  }

  /** Four names joined by "/". */
  lemma JoinFour(a: string, b: string, c: string, d: string)
    ensures Join([a, b, c, d]) == a + ("/" + (b + ("/" + (c + ("/" + d)))))
  {
    assert Join([d]) == d;
    assert [c, d][1..] == [d];
    assert Join([c, d]) == c + ("/" + d);
    assert [b, c, d][1..] == [c, d];
    assert Join([b, c, d]) == b + ("/" + (c + ("/" + d)));
    assert [a, b, c, d][1..] == [b, c, d];
  }

  /** The hard-coded root is in normal form, so the round-trip lemmas apply to it. */
  lemma TestDataRootIsNormal()
    ensures IsNormal(TestDataRoot)
  {
    var names := TestDataRoot.names;
    forall i | 0 <= i < |names|
      ensures names[i] != "." && names[i] != ".."
    {
      assert |names[i]| > 2;
    }
  }
}
