/** Anchoring of output paths (src/dns_conf.rs): a relative path is taken from the directory
    of the configuration file and cleaned up without looking at the file system. */
module PathAnchor {

  datatype Component = RootDir | CurDir | ParentDir | Normal(name: string)

  type Path = seq<Component>

  predicate IsAbsolute(p: Path) {
    p != [] && p[0].RootDir?
  }

  /** A root can only stand in front. */
  ghost predicate WellFormed(p: Path) {
    forall i :: 0 < i < |p| ==> !p[i].RootDir?
  }

  // ---------------------------------------------------------------- meaning

  /** Where a path leads from a directory, without symbolic links; above the root is the root. */
  function Walk(dir: seq<string>, p: Path): seq<string> {
    if p == [] then dir
    else
      var at := Walk(dir, p[..|p| - 1]);
      match p[|p| - 1]
      case RootDir => []
      case CurDir => at
      case ParentDir => if at == [] then [] else at[..|at| - 1]
      case Normal(name) => at + [name]
  }

  lemma {:induction false} WalkConcat(dir: seq<string>, p: Path, q: Path)
    ensures Walk(dir, p + q) == Walk(Walk(dir, p), q)
  {
    if q == [] {
      assert p + q == p;
    } else {
      assert (p + q)[..|p + q| - 1] == p + q[..|q| - 1];
      WalkConcat(dir, p, q[..|q| - 1]);
    }
  }

  // ---------------------------------------------------------------- normalisation

  /** One component on top of what is clean already. */
  function Add(clean: Path, c: Component): Path {
    match c
    case CurDir => clean
    case ParentDir =>
      if clean != [] && clean[|clean| - 1].Normal? then clean[..|clean| - 1] else clean + [c]
    case _ => clean + [c]
  }

  function Normalized(p: Path): Path {
    if p == [] then [] else Add(Normalized(p[..|p| - 1]), p[|p| - 1])
  }

  /** Relative paths start from the base directory. */
  function Anchored(base: Path, raw: Path): Path {
    Normalized(if IsAbsolute(raw) then raw else base + raw)
  }

  method AnchorPath(base: Path, raw: Path) returns (normalized: Path)
    ensures normalized == Anchored(base, raw)
  {
    var joined := if IsAbsolute(raw) then raw else base + raw;
    normalized := [];
    for i := 0 to |joined|
      invariant normalized == Normalized(joined[..i])
    {
      assert joined[..i + 1][..i] == joined[..i];
      match joined[i] {
        case CurDir =>
        case ParentDir =>
          if |normalized| > 0 && normalized[|normalized| - 1].Normal? {
            normalized := normalized[..|normalized| - 1];
          } else {
            normalized := normalized + [joined[i]];
          }
        case _ => normalized := normalized + [joined[i]];
      }
    }
    assert joined[..|joined|] == joined;
  }

  // ---------------------------------------------------------------- what it guarantees

  /** The clean form: perhaps a root, then steps up, then names. */
  ghost predicate IsClean(p: Path) {
    && WellFormed(p)
    && (forall i :: 0 <= i < |p| ==> !p[i].CurDir?)
    && (forall i, j :: 0 <= i < j < |p| && p[i].Normal? ==> p[j].Normal?)
  }

  lemma NoNameBefore(clean: Path)
    requires IsClean(clean) && (clean != [] ==> !clean[|clean| - 1].Normal?)
    ensures forall i :: 0 <= i < |clean| ==> !clean[i].Normal?
  {
  }

  lemma AddClean(clean: Path, c: Component)
    requires IsClean(clean) && (c.RootDir? ==> clean == [])
    ensures IsClean(Add(clean, c))
  {
    if c.ParentDir? && !(clean != [] && clean[|clean| - 1].Normal?) {
      NoNameBefore(clean);
    }
  }

  lemma {:induction false} NormalizedClean(p: Path)
    requires WellFormed(p)
    ensures IsClean(Normalized(p))
  {
    if p != [] {
      NormalizedClean(p[..|p| - 1]);
      AddClean(Normalized(p[..|p| - 1]), p[|p| - 1]);
    }
  }

  lemma {:induction false} CleanIsFixed(p: Path)
    requires IsClean(p)
    ensures Normalized(p) == p
  {
    if p != [] {
      CleanIsFixed(p[..|p| - 1]);
      assert p == p[..|p| - 1] + [p[|p| - 1]];
    }
  }

  /** Normalising twice changes nothing more, and the result has no `.` and no name that a
      later `..` would undo. */
  lemma NormalizedIdempotent(p: Path)
    requires WellFormed(p)
    ensures IsClean(Normalized(p)) && Normalized(Normalized(p)) == Normalized(p)
  {
    NormalizedClean(p);
    CleanIsFixed(Normalized(p));
  }

  /** The clean path leads to the same place from everywhere. */
  lemma {:induction false} NormalizedKeepsMeaning(p: Path, dir: seq<string>)
    ensures Walk(dir, Normalized(p)) == Walk(dir, p)
  {
    if p != [] {
      var init, c := p[..|p| - 1], p[|p| - 1];
      NormalizedKeepsMeaning(init, dir);
      AddMeaning(Normalized(init), c, dir);
      assert p == init + [c];
      WalkConcat(dir, init, [c]);
      WalkConcat(dir, Normalized(init), [c]);
    }
  }

  lemma AddMeaning(clean: Path, c: Component, dir: seq<string>)
    ensures Walk(dir, Add(clean, c)) == Walk(dir, clean + [c])
  {
    assert (clean + [c])[..|clean|] == clean;
    if c.ParentDir? && clean != [] && clean[|clean| - 1].Normal? {
      var at := Walk(dir, clean[..|clean| - 1]);
      assert Walk(dir, clean) == at + [clean[|clean| - 1].name];
      assert (at + [clean[|clean| - 1].name])[..|at|] == at;
    }
  }

  /** An anchored path leads where the raw path leads from the base directory; from an
      absolute base it does not depend on the working directory. */
  lemma AnchoredMeaning(base: Path, raw: Path, cwd: seq<string>, cwd2: seq<string>)
    requires WellFormed(base) && WellFormed(raw)
    ensures Walk(cwd, Anchored(base, raw)) == Walk(Walk(cwd, base), raw)
    ensures IsAbsolute(base) || IsAbsolute(raw) ==> Walk(cwd, Anchored(base, raw)) == Walk(cwd2, Anchored(base, raw))
  {
    NormalizedKeepsMeaning(if IsAbsolute(raw) then raw else base + raw, cwd);
    NormalizedKeepsMeaning(if IsAbsolute(raw) then raw else base + raw, cwd2);
    WalkConcat(cwd, base, raw);
    WalkConcat(cwd2, base, raw);
    if IsAbsolute(raw) {
      AbsoluteForgets(raw, Walk(cwd, base), cwd);
      AbsoluteForgets(raw, cwd, cwd2);
    } else if IsAbsolute(base) {
      AbsoluteForgets(base, cwd, cwd2);
    }
  }

  lemma {:induction false} AbsoluteForgets(p: Path, d1: seq<string>, d2: seq<string>)
    requires IsAbsolute(p)
    ensures Walk(d1, p) == Walk(d2, p)
  {
    if |p| > 1 {
      AbsoluteForgets(p[..|p| - 1], d1, d2);
    }
  }

  // ---------------------------------------------------------------- relative paths

  /** Steps up, then names. */
  function Ups(k: nat): (p: Path)
    ensures |p| == k && forall i :: 0 <= i < k ==> p[i] == ParentDir
  {
    seq(k, _ => ParentDir)
  }

  function Down(names: seq<string>): (p: Path)
    ensures |p| == |names| && forall i :: 0 <= i < |names| ==> p[i] == Normal(names[i])
  {
    seq(|names|, i requires 0 <= i < |names| => Normal(names[i]))
  }

  lemma {:induction false} WalkUps(dir: seq<string>, k: nat)
    ensures Walk(dir, Ups(k)) == dir[..if k <= |dir| then |dir| - k else 0]
  {
    if k > 0 {
      WalkUps(dir, k - 1);
      assert Ups(k)[..k - 1] == Ups(k - 1);
    } else {
      assert dir[..|dir|] == dir;
    }
  }

  lemma {:induction false} WalkDown(dir: seq<string>, names: seq<string>)
    ensures Walk(dir, Down(names)) == dir + names
  {
    if names == [] {
      assert dir + names == dir;
    } else {
      var init := names[..|names| - 1];
      WalkDown(dir, init);
      assert Down(names)[..|names| - 1] == Down(init);
      assert dir + names == dir + init + [names[|names| - 1]];
    }
  }

  lemma SplitClean(p: Path) returns (k: nat, names: seq<string>)
    requires IsClean(p) && !IsAbsolute(p)
    ensures p == Ups(k) + Down(names)
  {
    k := 0;
    while k < |p| && !p[k].Normal?
      invariant k <= |p| && forall i :: 0 <= i < k ==> p[i].ParentDir?
    {
      k := k + 1;
    }
    names := seq(|p| - k, i requires 0 <= i < |p| - k => if p[k + i].Normal? then p[k + i].name else "");
    forall i | k <= i < |p| ensures p[i] == Normal(names[i - k]) {
      assert p[k].Normal?;
    }
    assert p == Ups(k) + Down(names);
  }

  lemma WalkClean(dir: seq<string>, k: nat, names: seq<string>)
    ensures Walk(dir, Ups(k) + Down(names)) == dir[..if k <= |dir| then |dir| - k else 0] + names
  {
    WalkConcat(dir, Ups(k), Down(names));
    WalkUps(dir, k);
    WalkDown(Walk(dir, Ups(k)), names);
  }

  lemma {:induction false} NormalizedRelative(p: Path)
    requires WellFormed(p) && !IsAbsolute(p)
    ensures !IsAbsolute(Normalized(p))
  {
    if p != [] {
      NormalizedRelative(p[..|p| - 1]);
    }
  }

  /** Two directories are enough to tell clean relative paths apart. */
  lemma SameWalksSameForm(k: nat, names: seq<string>, l: nat, other: seq<string>, deep: seq<string>)
    requires |deep| == k + l
    requires Walk([], Ups(k) + Down(names)) == Walk([], Ups(l) + Down(other))
    requires Walk(deep, Ups(k) + Down(names)) == Walk(deep, Ups(l) + Down(other))
    ensures k == l && names == other
  {
    WalkClean([], k, names);
    WalkClean([], l, other);
    var none: seq<string> := [];
    assert none[..0] + names == names && none[..0] + other == other;
    WalkClean(deep, k, names);
    WalkClean(deep, l, other);
    assert |deep[..l] + names| == |deep[..k] + other|;
  }

  ghost predicate SameMeaning(p: Path, q: Path) {
    forall dir :: Walk(dir, p) == Walk(dir, q)
  }

  lemma SameMeaningSameForm(p: Path, q: Path)
    requires WellFormed(p) && WellFormed(q) && !IsAbsolute(p) && !IsAbsolute(q)
    requires SameMeaning(p, q)
    ensures Normalized(p) == Normalized(q)
  {
    NormalizedClean(p);
    NormalizedClean(q);
    NormalizedRelative(p);
    NormalizedRelative(q);
    var k, names := SplitClean(Normalized(p));
    var l, other := SplitClean(Normalized(q));
    var deep := seq(k + l, _ => "d");
    NormalizedKeepsMeaning(p, []);
    NormalizedKeepsMeaning(q, []);
    NormalizedKeepsMeaning(p, deep);
    NormalizedKeepsMeaning(q, deep);
    SameWalksSameForm(k, names, l, other, deep);
  }

  /** Two relative paths have one clean form exactly when they mean the same from everywhere:
      the clean form is canonical. */
  lemma CleanFormDecides(p: Path, q: Path)
    requires WellFormed(p) && WellFormed(q) && !IsAbsolute(p) && !IsAbsolute(q)
    ensures Normalized(p) == Normalized(q) <==> SameMeaning(p, q)
  {
    if Normalized(p) == Normalized(q) {
      forall dir ensures Walk(dir, p) == Walk(dir, q) {
        NormalizedKeepsMeaning(p, dir);
        NormalizedKeepsMeaning(q, dir);
      }
    }
    if SameMeaning(p, q) {
      SameMeaningSameForm(p, q);
    }
  }

  // ---------------------------------------------------------------- absolute paths

  lemma {:induction false} NormalizedAbsolute(p: Path)
    requires WellFormed(p) && IsAbsolute(p)
    ensures IsAbsolute(Normalized(p))
    decreases |p|
  {
    if |p| > 1 {
      NormalizedAbsolute(p[..|p| - 1]);
    } else {
      assert p[..0] == [];
    }
  }

  lemma WalkAbsolute(dir: seq<string>, p: Path)
    requires IsClean(p) && IsAbsolute(p)
    ensures exists k: nat, names :: p == [RootDir] + (Ups(k) + Down(names)) && Walk(dir, p) == names
  {
    assert IsClean(p[1..]) && !IsAbsolute(p[1..]);
    var k, names := SplitClean(p[1..]);
    assert p == [RootDir] + (Ups(k) + Down(names));
    WalkConcat(dir, [RootDir], Ups(k) + Down(names));
    assert Walk(dir, [RootDir]) == [];
    WalkClean([], k, names);
    var none: seq<string> := [];
    assert none[..0] + names == names;
  }

  /** Steps up from the root are kept, so absolute paths of one meaning have one clean form
      exactly when as many steps up remain in both, that is, when the forms are equally long. */
  lemma AbsoluteFormsAgreeExactly(p: Path, q: Path)
    requires WellFormed(p) && WellFormed(q) && IsAbsolute(p) && IsAbsolute(q) && SameMeaning(p, q)
    ensures Normalized(p) == Normalized(q) <==> |Normalized(p)| == |Normalized(q)|
  {
    NormalizedClean(p);
    NormalizedClean(q);
    NormalizedAbsolute(p);
    NormalizedAbsolute(q);
    NormalizedKeepsMeaning(p, []);
    NormalizedKeepsMeaning(q, []);
    WalkAbsolute([], Normalized(p));
    WalkAbsolute([], Normalized(q));
    assert Walk([], p) == Walk([], q);
    var k: nat, names :| Normalized(p) == [RootDir] + (Ups(k) + Down(names)) && Walk([], Normalized(p)) == names;
    var l: nat, other :| Normalized(q) == [RootDir] + (Ups(l) + Down(other)) && Walk([], Normalized(q)) == other;
  }

  /** The root and its parent: one place, two clean forms. */
  lemma RootParentKept()
    ensures SameMeaning([RootDir], [RootDir, ParentDir])
    ensures Normalized([RootDir]) == [RootDir] && Normalized([RootDir, ParentDir]) == [RootDir, ParentDir]
  {
    assert [RootDir, ParentDir][..1] == [RootDir] && [RootDir][..0] == [];
    assert Normalized([]) == [];
    assert Normalized([RootDir]) == [] + [RootDir];
    assert Normalized([RootDir, ParentDir]) == [RootDir] + [ParentDir];
    forall dir ensures Walk(dir, [RootDir]) == Walk(dir, [RootDir, ParentDir]) {
      assert Walk(dir, [RootDir]) == [];
    }
  }
}
