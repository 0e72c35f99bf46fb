/**
 * The part of the JDK's Unix path implementation that the scanner relies on:
 * `Paths.get` (Parse), `toString` (Format), `normalize` (Normalize) and
 * `relativize` (Relativize), with `resolve` (Resolve) as the partner that
 * undoes a relativization.
 */
module PathModel {

  /** A parsed path: whether it starts at the root "/", and its name elements. */
  datatype Path = Path(absolute: bool, names: seq<string>)

  /** The unchecked exceptions the path operations can throw. */
  datatype PathError =
    | NulCharacter(input: string)  // InvalidPathException from Paths.get
    | DifferentType                // IllegalArgumentException from relativize

  datatype Result<T> = Ok(value: T) | Err(error: PathError)

  /** A name element as Paths.get produces it. */
  predicate IsName(n: string) {
    n != [] && '/' !in n && '\0' !in n
  }

  predicate AllNames(ns: seq<string>) {
    forall i :: 0 <= i < |ns| ==> IsName(ns[i])
  }

  predicate WellFormed(p: Path) {
    AllNames(p.names)
  }

  /**
   * The form `normalize` leaves a path in: no "." element, no ".." after an
   * element that is not itself "..", and in an absolute path no ".." at all.
   * A relative path may still start with a run of "..".
   */
  predicate NormalNames(ns: seq<string>, absolute: bool) {
    && (forall i :: 0 <= i < |ns| ==> ns[i] != ".")
    && (forall i, j :: 0 <= i < j < |ns| && ns[j] == ".." ==> ns[i] == "..")
    && (absolute ==> forall i :: 0 <= i < |ns| ==> ns[i] != "..")
  }

  predicate IsNormal(p: Path) {
    NormalNames(p.names, p.absolute)
  }

  // ---------------------------------------------------------------------------
  // Paths.get and toString
  // ---------------------------------------------------------------------------

  /** Length of the leading part of s that holds no '/'. */
  function NameEnd(s: string): (k: nat)
    ensures k <= |s|
    ensures forall i :: 0 <= i < k ==> s[i] != '/'
    ensures s != [] && s[0] != '/' ==> k > 0
  {
    if s == [] || s[0] == '/' then 0 else 1 + NameEnd(s[1..])
  }

  /**
   * The name elements of s: the pieces between '/' separators, where the
   * empty pieces that a leading, doubled or trailing '/' would give are dropped.
   */
  function Segments(s: string): (r: seq<string>)
    ensures forall i :: 0 <= i < |r| ==> r[i] != [] && '/' !in r[i]
    ensures '\0' !in s ==> AllNames(r)
    decreases |s|
  {
    if s == [] then []
    else if s[0] == '/' then Segments(s[1..])
    else
      var k := NameEnd(s);
      assert forall c :: c in s[..k] ==> c in s;
      [s[..k]] + Segments(s[k..])
  }

  /** `Paths.get(s)`: a NUL character is refused, redundant slashes are dropped. */
  function Parse(s: string): (r: Result<Path>)
    ensures r.Err? <==> '\0' in s
    ensures r.Ok? ==> WellFormed(r.value)
    ensures r.Ok? ==> (r.value.absolute <==> s != [] && s[0] == '/')
  {
    if '\0' in s then Err(NulCharacter(s))
    else Ok(Path(s != [] && s[0] == '/', Segments(s)))
  }

  /** The names joined by single '/' separators. */
  function Join(names: seq<string>): string {
    if names == [] then ""
    else if |names| == 1 then names[0]
    else names[0] + ("/" + Join(names[1..]))
  }

  /** `Path.toString()`: a leading "/" for an absolute path, then the joined names. */
  function Format(p: Path): (r: string)
    ensures p.absolute ==> r != [] && r[0] == '/'
    ensures !p.absolute && WellFormed(p) ==> r == [] || r[0] != '/'
  {
    JoinStart(p.names);
    (if p.absolute then "/" else "") + Join(p.names)
  }

  lemma {:induction false} NameEndAt(a: string, t: string)
    requires '/' !in a
    requires t == [] || t[0] == '/'
    ensures NameEnd(a + t) == |a|
  {
    if a != [] {
      assert a[0] in a;
      assert (a + t)[1..] == a[1..] + t;
      NameEndAt(a[1..], t);
    } else {
      assert a + t == t;
    }
  }

  lemma {:induction false} JoinAvoids(names: seq<string>, c: char)
    requires c != '/'
    requires forall i :: 0 <= i < |names| ==> c !in names[i]
    ensures c !in Join(names)
  {
    if |names| > 1 {
      JoinAvoids(names[1..], c);
      assert Join(names) == names[0] + ("/" + Join(names[1..]));
    }
  }

  lemma {:induction false} JoinStart(names: seq<string>)
    ensures names != [] && names[0] != [] ==>
      Join(names) != [] && Join(names)[0] == names[0][0] && Join(names)[0] in names[0]
  {
    if names != [] && names[0] != [] {
      assert names[0][0] in names[0];
    }
    if |names| > 1 {
      assert Join(names) == names[0] + ("/" + Join(names[1..]));
    }
  }

  /** Splitting the joined names gives the names back. */
  lemma {:induction false} SegmentsJoin(names: seq<string>)
    requires AllNames(names)
    ensures Segments(Join(names)) == names
    decreases |names|, 1
  {
    if |names| == 1 {
      SegmentsOne(names[0]);
    } else if |names| > 1 {
      assert names == [names[0]] + names[1..];
      SegmentsJoinCons(names[0], names[1..]);
    }
  }

  /** The inductive step of SegmentsJoin: one more name in front. */
  lemma {:induction false} SegmentsJoinCons(n: string, rest: seq<string>)
    requires IsName(n) && AllNames(rest) && rest != []
    ensures Segments(Join([n] + rest)) == [n] + rest
    decreases |rest| + 1, 0
  {
    SegmentsJoin(rest);
    assert ([n] + rest)[1..] == rest;
    SegmentsStep(n, Join(rest));
  }

  /** A single name is its own only element. */
  lemma SegmentsOne(n: string)
    requires IsName(n)
    ensures Segments(n) == [n]
  {
    assert n[0] in n;
    NameEndAt(n, "");
    assert n + "" == n;
    assert n[..|n|] == n;
    assert n[|n|..] == [];
  }

  /** A name followed by "/" and more text splits into the name and the rest's elements. */
  lemma SegmentsStep(n: string, rest: string)
    requires IsName(n)
    ensures Segments(n + ("/" + rest)) == [n] + Segments(rest)
  {
    var tail := "/" + rest;
    var s := n + tail;
    assert n[0] in n;
    NameEndAt(n, tail);
    assert s[..|n|] == n;
    assert s[|n|..] == tail;
    assert tail[1..] == rest;
  }

  /** Round trip of `Paths.get` and `toString` on every well-formed path. */
  lemma ParseFormat(p: Path)
    requires WellFormed(p)
    ensures Parse(Format(p)) == Ok(p)
  {
    var s := Format(p);
    var j := Join(p.names);
    JoinAvoids(p.names, '\0');
    SegmentsJoin(p.names);
    if p.absolute {
      assert s == "/" + j && s[1..] == j;
    } else {
      assert s == j;
      JoinStart(p.names);
    }
  }

  // ---------------------------------------------------------------------------
  // normalize
  // ---------------------------------------------------------------------------

  /**
   * One element of `normalize`, applied to the names kept so far: "." is
   * dropped; ".." removes the name kept last unless that is "..", and when
   * nothing can be removed it is dropped from an absolute path and kept in a
   * relative one; any other name is kept.
   */
  function Push(kept: seq<string>, n: string, absolute: bool): seq<string> {
    if n == "." then kept
    else if n == ".." then
      if kept != [] && kept[|kept| - 1] != ".." then kept[..|kept| - 1]
      else if absolute then kept
      else kept + [n]
    else kept + [n]
  }

  lemma PushNormal(kept: seq<string>, n: string, absolute: bool)
    requires NormalNames(kept, absolute)
    ensures NormalNames(Push(kept, n, absolute), absolute)
  {
  }

  lemma PushNames(kept: seq<string>, n: string, absolute: bool)
    requires AllNames(kept) && IsName(n)
    ensures AllNames(Push(kept, n, absolute))
  {
  }

  /** `Push` applied to each of `names` in turn. */
  function Fold(kept: seq<string>, names: seq<string>, absolute: bool): seq<string>
    decreases names
  {
    if names == [] then kept else Fold(Push(kept, names[0], absolute), names[1..], absolute)
  }

  /** Folding onto names in normal form gives names in normal form. */
  lemma {:induction false} FoldMakesNormal(kept: seq<string>, names: seq<string>, absolute: bool)
    requires NormalNames(kept, absolute)
    ensures NormalNames(Fold(kept, names, absolute), absolute)
    decreases names
  {
    if names != [] {
      PushNormal(kept, names[0], absolute);
      FoldMakesNormal(Push(kept, names[0], absolute), names[1..], absolute);
    }
  }

  /** Folding valid names onto valid names gives valid names. */
  lemma {:induction false} FoldKeepsNames(kept: seq<string>, names: seq<string>, absolute: bool)
    requires AllNames(kept) && AllNames(names)
    ensures AllNames(Fold(kept, names, absolute))
    decreases names
  {
    if names != [] {
      PushNames(kept, names[0], absolute);
      FoldKeepsNames(Push(kept, names[0], absolute), names[1..], absolute);
    }
  }

  /** `Path.normalize()`: every result is in normal form and keeps its kind. */
  function Normalize(p: Path): (r: Path)
    ensures r.absolute == p.absolute
    ensures IsNormal(r)
    ensures WellFormed(p) ==> WellFormed(r)
  {
    FoldMakesNormal([], p.names, p.absolute);
    if WellFormed(p) then
      FoldKeepsNames([], p.names, p.absolute);
      Path(p.absolute, Fold([], p.names, p.absolute))
    else
      Path(p.absolute, Fold([], p.names, p.absolute))
  }

  lemma {:induction false} FoldAppend(kept: seq<string>, a: seq<string>, b: seq<string>, absolute: bool)
    ensures Fold(kept, a + b, absolute) == Fold(Fold(kept, a, absolute), b, absolute)
    decreases a
  {
    if a == [] {
      assert a + b == b;
    } else {
      assert (a + b)[0] == a[0];
      assert (a + b)[1..] == a[1..] + b;
      FoldAppend(Push(kept, a[0], absolute), a[1..], b, absolute);
    }
  }

  /** Names already in normal form pass through unchanged. */
  lemma {:induction false} FoldNormal(kept: seq<string>, b: seq<string>, absolute: bool)
    requires NormalNames(kept + b, absolute)
    ensures Fold(kept, b, absolute) == kept + b
    decreases b
  {
    if b != [] {
      var n := b[0];
      assert (kept + b)[|kept|] == n;
      if kept != [] {
        assert (kept + b)[|kept| - 1] == kept[|kept| - 1];
      }
      assert Push(kept, n, absolute) == kept + [n];
      assert kept + b == (kept + [n]) + b[1..];
      FoldNormal(kept + [n], b[1..], absolute);
    } else {
      assert kept + b == kept;
    }
  }

  function Dots(k: nat): (r: seq<string>)
    ensures |r| == k
    ensures forall i :: 0 <= i < k ==> r[i] == ".."
  {
    if k == 0 then [] else [".."] + Dots(k - 1)
  }

  /** Each ".." removes one of the trailing names. */
  lemma {:induction false} FoldDots(kept: seq<string>, k: nat, absolute: bool)
    requires k <= |kept|
    requires forall i :: 0 <= i < |kept| ==> kept[i] != ".."
    ensures Fold(kept, Dots(k), absolute) == kept[..|kept| - k]
  {
    if k > 0 {
      var shorter := kept[..|kept| - 1];
      assert Push(kept, "..", absolute) == shorter;
      assert Dots(k)[1..] == Dots(k - 1);
      FoldDots(shorter, k - 1, absolute);
      assert shorter[..|shorter| - (k - 1)] == kept[..|kept| - k];
    } else {
      assert kept[..|kept|] == kept;
    }
  }

  /** A path in normal form is its own normalization. */
  lemma NormalizeFixesNormal(p: Path)
    requires IsNormal(p)
    ensures Normalize(p) == p
  {
    assert [] + p.names == p.names;
    FoldNormal([], p.names, p.absolute);
  }

  lemma NormalizeIdempotent(p: Path)
    ensures Normalize(Normalize(p)) == Normalize(p)
  {
    NormalizeFixesNormal(Normalize(p));
  }

  // ---------------------------------------------------------------------------
  // relativize and resolve
  // ---------------------------------------------------------------------------

  /** Number of leading names a and b share. */
  function CommonPrefix(a: seq<string>, b: seq<string>): (k: nat)
    ensures k <= |a| && k <= |b|
    ensures a[..k] == b[..k]
    ensures k < |a| && k < |b| ==> a[k] != b[k]
  {
    if a == [] || b == [] || a[0] != b[0] then 0
    else
      var k := 1 + CommonPrefix(a[1..], b[1..]);
      assert a[..k] == [a[0]] + a[1..][..k - 1];
      assert b[..k] == [b[0]] + b[1..][..k - 1];
      k
  }

  /**
   * `base.relativize(other)`, name by name as the JDK's Unix implementation
   * does it: both paths must be of the same kind; the shared leading names
   * are skipped, one ".." stands for each remaining name of `base`, and the
   * remaining names of `other` follow.
   */
  function Relativize(base: Path, other: Path): (r: Result<Path>)
    ensures r.Err? <==> base.absolute != other.absolute
    ensures r.Ok? ==> !r.value.absolute
    ensures r.Ok? && WellFormed(other) ==> WellFormed(r.value)
  {
    if base.absolute != other.absolute then Err(DifferentType)
    else
      var k := CommonPrefix(base.names, other.names);
      Ok(Path(false, Dots(|base.names| - k) + other.names[k..]))
  }

  /** `base.resolve(other)`: an absolute `other` wins, else its names are appended. */
  function Resolve(base: Path, other: Path): Path {
    if other.absolute then other else Path(base.absolute, base.names + other.names)
  }

  lemma {:induction false} CommonPrefixOfPrefix(a: seq<string>, b: seq<string>)
    requires |a| <= |b| && a == b[..|a|]
    ensures CommonPrefix(a, b) == |a|
  {
    if a != [] {
      assert a[0] == b[0];
      assert a[1..] == b[1..][..|a| - 1];
      CommonPrefixOfPrefix(a[1..], b[1..]);
    }
  }

  /** A path under `root` relativizes to exactly its names below `root`, with no "..". */
  lemma RelativizeUnderRoot(root: Path, member: Path)
    requires root.absolute && member.absolute
    requires |root.names| <= |member.names| && root.names == member.names[..|root.names|]
    ensures Relativize(root, member) == Ok(Path(false, member.names[|root.names|..]))
  {
    CommonPrefixOfPrefix(root.names, member.names);
    assert Dots(0) + member.names[|root.names|..] == member.names[|root.names|..];
  }

  /** Relativizing a normal absolute path gives a normal relative path. */
  lemma RelativizeIsNormal(root: Path, member: Path)
    requires root.absolute && member.absolute && IsNormal(member)
    ensures Relativize(root, member).Ok? && IsNormal(Relativize(root, member).value)
  {
    var k := CommonPrefix(root.names, member.names);
    var up := Dots(|root.names| - k);
    var down := member.names[k..];
    var ns := up + down;
    assert Relativize(root, member).value.names == ns;
    forall i | 0 <= i < |ns|
      ensures ns[i] != "."
      ensures 0 < i && ns[i] == ".." ==> ns[i - 1] == ".."
    {
      if i >= |up| {
        assert ns[i] == member.names[k + i - |up|];
      }
    }
  }

  /**
   * Resolving the relativized path against `root` and normalizing gives the
   * member back, for every normal absolute member, inside `root` or not.
   */
  lemma ResolveRelativize(root: Path, member: Path)
    requires root.absolute && IsNormal(root)
    requires member.absolute && IsNormal(member)
    ensures Relativize(root, member).Ok?
    ensures Normalize(Resolve(root, Relativize(root, member).value)) == member
  {
    var rel := Relativize(root, member).value;
    RelativizeIsNormal(root, member);
    NormalizeFixesNormal(rel);
    ResolveNormalizedRelativize(root, member);
    NormalizeFixesNormal(member);
  }

  /**
   * The emitted form of a relativization is normalized before it is used, so
   * the round trip goes through Normalize: resolving the normalized
   * relativization against `root` and normalizing gives the normalized
   * member, for every absolute member, in normal form or not.
   */
  lemma ResolveNormalizedRelativize(root: Path, member: Path)
    requires root.absolute && IsNormal(root) && member.absolute
    ensures Relativize(root, member).Ok?
    ensures Normalize(Resolve(root, Normalize(Relativize(root, member).value))) == Normalize(member)
  {
    var r, m := root.names, member.names;
    var k := CommonPrefix(r, m);
    var relNames := Dots(|r| - k) + m[k..];
    var resolved := Resolve(root, Normalize(Relativize(root, member).value));
    assert resolved == Path(true, r + Fold([], relNames, false));
    assert Normalize(resolved).names == Fold([], r + Fold([], relNames, false), true);
    assert Normalize(member).names == Fold([], m, true);
    ResolvedFold(r, relNames);
    UnwindAny(r, m);
  }

  /** From normal absolute names, the relativized names lead to the normalized target. */
  lemma UnwindAny(r: seq<string>, m: seq<string>)
    requires NormalNames(r, true)
    ensures var k := CommonPrefix(r, m);
      Fold(r, Dots(|r| - k) + m[k..], true) == Fold([], m, true)
  {
    var k := CommonPrefix(r, m);
    FoldAppend(r, Dots(|r| - k), m[k..], true);
    FoldDotsTo(r, k, m[..k]);
    FoldSplit(m, k, r);
  }

  /** Applying normalized relative names to normal absolute names is applying the raw names. */
  lemma ResolvedFold(r: seq<string>, rel: seq<string>)
    requires NormalNames(r, true)
    ensures Fold([], r + Fold([], rel, false), true) == Fold(r, rel, true)
  {
    FoldAppend([], r, Fold([], rel, false), true);
    assert [] + r == r;
    FoldNormal([], r, true);
    FoldThroughRelative(r, [], rel);
  }

  /** A normal prefix of the names folds to itself, so folding can start after it. */
  lemma FoldSplit(m: seq<string>, k: nat, r: seq<string>)
    requires k <= |m| && k <= |r| && m[..k] == r[..k] && NormalNames(r, true)
    ensures Fold([], m, true) == Fold(m[..k], m[k..], true)
  {
    assert m[..k] + m[k..] == m;
    FoldAppend([], m[..k], m[k..], true);
    assert forall i :: 0 <= i < k ==> m[..k][i] == r[i];
    assert [] + m[..k] == m[..k];
    FoldNormal([], m[..k], true);
  }

  /**
   * Folding relative names first and then applying the result to absolute
   * names gives the same as applying the names directly.
   */
  lemma {:induction false} FoldThroughRelative(kept: seq<string>, rel: seq<string>, names: seq<string>)
    requires NormalNames(rel, false)
    ensures Fold(kept, Fold(rel, names, false), true) == Fold(Fold(kept, rel, true), names, true)
    decreases names
  {
    if names != [] {
      PushNormal(rel, names[0], false);
      FoldThroughRelative(kept, Push(rel, names[0], false), names[1..]);
      PushThroughRelative(kept, rel, names[0]);
    }
  }

  /** One relative step, applied to absolute names, is the same step taken there. */
  lemma PushThroughRelative(kept: seq<string>, rel: seq<string>, n: string)
    requires NormalNames(rel, false)
    ensures Fold(kept, Push(rel, n, false), true) == Push(Fold(kept, rel, true), n, true)
  {
    if n == "." {
    } else if n == ".." && rel != [] && rel[|rel| - 1] != ".." {
      var init, last := rel[..|rel| - 1], rel[|rel| - 1];
      assert rel == init + [last];
      FoldAppend(kept, init, [last], true);
      assert last != ".";
    } else {
      FoldAppend(kept, rel, [n], true);
    }
  }

  /** The ".." steps of a relativization unwind the root to its shared prefix. */
  lemma FoldDotsTo(r: seq<string>, k: nat, prefix: seq<string>)
    requires k <= |r| && r[..k] == prefix
    requires forall i :: 0 <= i < |r| ==> r[i] != ".."
    ensures Fold(r, Dots(|r| - k), true) == prefix
  {
    FoldDots(r, |r| - k, true);
    assert r[..|r| - (|r| - k)] == r[..k];
  }

}
