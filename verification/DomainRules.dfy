/** The domain rule index (src/collections.rs, src/config/domain.rs): a hash map from rule
    names to values, a second index from a parent name to its one-level wildcards, and a
    lookup that walks the labels of the queried name towards the root.

    Names compare without regard to letter case, so the hash map is keyed by folded names;
    the wildcard index keeps every rule in the spelling it was inserted with, because
    one-level wildcards compare their parent letter by letter. */
module DomainRules {
  import opened Dns

  datatype Name = Name(labels: seq<string>, fqdn: bool)

  datatype RuleName =
    | Default(name: Name)                 // the name and everything below it
    | Suffix(name: Name)                  // everything below the name
    | Sub(pattern: string, name: Name)    // one label below the name, matching a pattern
    | Full(name: Name)                    // the name itself

  // ---------------------------------------------------------------- names

  function LowerChar(c: char): char {
    if 'A' <= c <= 'Z' then (c as int + 32) as char else c
  }

  function Lower(s: string): (t: string)
    ensures |t| == |s|
  {
    seq(|s|, i requires 0 <= i < |s| => LowerChar(s[i]))
  }

  function FoldLabels(labels: seq<string>): (f: seq<string>)
    ensures |f| == |labels|
    ensures forall i :: 0 <= i < |labels| ==> f[i] == Lower(labels[i])
  {
    seq(|labels|, i requires 0 <= i < |labels| => Lower(labels[i]))
  }

  function Fold(n: Name): Name {
    Name(FoldLabels(n.labels), n.fqdn)
  }

  /** Two rule names are the same hash key exactly when their keys are equal. */
  function Key(r: RuleName): RuleName {
    match r
    case Default(n) => Default(Fold(n))
    case Suffix(n) => Suffix(Fold(n))
    case Sub(p, n) => Sub(p, Fold(n))
    case Full(n) => Full(Fold(n))
  }

  function Qualified(r: RuleName): RuleName {
    r.(name := r.name.(fqdn := true))
  }

  predicate IsRoot(n: Name) {
    n.labels == [] && n.fqdn
  }

  predicate IsWildcardName(n: Name) {
    n.labels != [] && n.labels[0] == "*"
  }

  /** The parent; trimming a label always yields a fully qualified name. */
  function BaseName(n: Name): Name {
    if n.labels == [] then n else Name(n.labels[1..], true)
  }

  /** The name the walk starts from. */
  function Start(n: Name): Name {
    if IsWildcardName(n) then BaseName(n) else n
  }

  lemma FoldIdempotent(labels: seq<string>)
    ensures FoldLabels(FoldLabels(labels)) == FoldLabels(labels)
  {
    forall s: string ensures Lower(Lower(s)) == Lower(s) { }
  }

  lemma FoldDrop(labels: seq<string>, d: nat)
    requires d <= |labels|
    ensures FoldLabels(labels[d..]) == FoldLabels(labels)[d..]
  {
  }

  // ---------------------------------------------------------------- which spellings are equal

  /** Equal, or the capital and the small form of one ASCII letter. */
  predicate SameLetter(c: char, d: char) {
    c == d || ('A' <= c <= 'Z' && d as int == c as int + 32) || ('A' <= d <= 'Z' && c as int == d as int + 32)
  }

  predicate SameText(s: string, t: string) {
    |s| == |t| && forall i :: 0 <= i < |s| ==> SameLetter(s[i], t[i])
  }

  /** Label by label and letter by letter the same, but for capitals. */
  predicate SameLabels(a: seq<string>, b: seq<string>) {
    |a| == |b| && forall i :: 0 <= i < |a| ==> SameText(a[i], b[i])
  }

  lemma LowerSameExactly(s: string, t: string)
    ensures Lower(s) == Lower(t) <==> SameText(s, t)
  {
    if Lower(s) == Lower(t) {
      forall i | 0 <= i < |s| ensures SameLetter(s[i], t[i]) {
        assert Lower(s)[i] == Lower(t)[i];
      }
    }
    if SameText(s, t) {
      forall i | 0 <= i < |s| ensures Lower(s)[i] == Lower(t)[i] {
        assert SameLetter(s[i], t[i]);
      }
    }
  }

  lemma FoldSameExactly(a: seq<string>, b: seq<string>)
    ensures FoldLabels(a) == FoldLabels(b) <==> SameLabels(a, b)
  {
    hide Lower, SameText;
    if FoldLabels(a) == FoldLabels(b) {
      forall i | 0 <= i < |a| ensures SameText(a[i], b[i]) {
        assert FoldLabels(a)[i] == FoldLabels(b)[i];
        LowerSameExactly(a[i], b[i]);
      }
    }
    if SameLabels(a, b) {
      forall i | 0 <= i < |a| ensures FoldLabels(a)[i] == FoldLabels(b)[i] {
        LowerSameExactly(a[i], b[i]);
      }
    }
  }

  predicate SameKind(a: RuleName, b: RuleName) {
    match a
    case Default(_) => b.Default?
    case Suffix(_) => b.Suffix?
    case Sub(p, _) => b.Sub? && b.pattern == p
    case Full(_) => b.Full?
  }

  /** Two rule names share a place in the map exactly when they agree in kind, pattern and
      final dot, and spell one name but for capitals. */
  lemma KeySameExactly(a: RuleName, b: RuleName)
    ensures Key(a) == Key(b) <==>
            SameKind(a, b) && a.name.fqdn == b.name.fqdn && SameLabels(a.name.labels, b.name.labels)
  {
    FoldSameExactly(a.name.labels, b.name.labels);
  }

  // ---------------------------------------------------------------- matching one rule

  /** How a wildcard pattern meets a label is not fixed here: any matcher will do. */
  type Matcher = (string, string) -> bool

  predicate PatternMatch(glob: Matcher, pattern: string, text: string) {
    pattern == "" || glob(pattern, text)
  }

  predicate ZoneOf(zone: Name, n: Name) {
    |zone.labels| <= |n.labels|
    && FoldLabels(zone.labels) == FoldLabels(n.labels)[|n.labels| - |zone.labels|..]
  }

  /** `WildcardName::is_match`. */
  predicate IsMatch(glob: Matcher, r: RuleName, n: Name) {
    match r
    case Default(z) => ZoneOf(z, n)
    case Suffix(z) => z.labels != n.labels && ZoneOf(z, n)
    case Sub(p, z) => z.labels == BaseName(n).labels && (n.labels == [] || PatternMatch(glob, p, n.labels[0]))
    case Full(z) => z.labels == n.labels
  }

  // ---------------------------------------------------------------- the index as a value

  datatype Index<T> = Index(rules: map<RuleName, T>, wildcards: map<Name, seq<RuleName>>)

  function Empty<T>(): Index<T> {
    Index(map[], map[])
  }

  function Listed<T>(s: Index<T>, parent: Name): seq<RuleName> {
    if parent in s.wildcards then s.wildcards[parent] else []
  }

  /** The wildcard index lists exactly the one-level wildcards of the map. */
  ghost predicate Consistent<T>(s: Index<T>) {
    && (forall k :: k in s.rules ==> Key(k) == k)
    && (forall p, w :: w in Listed(s, p) ==> w.Sub? && Fold(w.name) == p && Key(w) in s.rules)
    && (forall k :: k in s.rules && k.Sub? ==> exists w :: w in Listed(s, k.name) && Key(w) == k)
  }

  function Put<T>(s: Index<T>, r: RuleName, v: T): Index<T> {
    Index(s.rules[Key(r) := v],
          if r.Sub? then s.wildcards[Fold(r.name) := Listed(s, Fold(r.name)) + [r]] else s.wildcards)
  }

  function Without(rules: seq<RuleName>, k: RuleName): (kept: seq<RuleName>)
    ensures forall w :: w in kept <==> w in rules && Key(w) != k
  {
    if rules == [] then []
    else (if Key(rules[0]) == k then [] else [rules[0]]) + Without(rules[1..], k)
  }

  function Drop<T>(s: Index<T>, r: RuleName): Index<T> {
    Index(s.rules - {Key(r)},
          if r.Sub? then s.wildcards[Fold(r.name) := Without(Listed(s, Fold(r.name)), Key(r))] else s.wildcards)
  }

  lemma KeyOfKey(r: RuleName)
    ensures Key(Key(r)) == Key(r)
  {
    FoldIdempotent(r.name.labels);
  }

  lemma PutConsistent<T>(s: Index<T>, r: RuleName, v: T)
    requires Consistent(s)
    ensures Consistent(Put(s, r, v))
  {
    KeyOfKey(r);
    var t := Put(s, r, v);
    forall p, w | w in Listed(t, p) ensures w.Sub? && Fold(w.name) == p && Key(w) in t.rules {
      assert w in Listed(s, p) || w == r;
    }
    forall k | k in t.rules && k.Sub? ensures exists w :: w in Listed(t, k.name) && Key(w) == k {
      if k == Key(r) {
        assert r in Listed(t, k.name);
      } else {
        var w :| w in Listed(s, k.name) && Key(w) == k;
        assert w in Listed(t, k.name);
      }
    }
  }

  lemma DropConsistent<T>(s: Index<T>, r: RuleName)
    requires Consistent(s)
    ensures Consistent(Drop(s, r))
  {
    var t := Drop(s, r);
    forall p, w | w in Listed(t, p) ensures w.Sub? && Fold(w.name) == p && Key(w) in t.rules {
      assert w in Listed(s, p);
    }
    forall k | k in t.rules && k.Sub? ensures exists w :: w in Listed(t, k.name) && Key(w) == k {
      var w :| w in Listed(s, k.name) && Key(w) == k;
      assert w in Listed(t, k.name);
    }
  }

  // ---------------------------------------------------------------- the reference scan

  /** A listed one-level wildcard that accepts the start name `q`. */
  predicate Hit<T>(s: Index<T>, glob: Matcher, q: Name, i: int) {
    q.labels != [] &&
    var listed := Listed(s, Name(FoldLabels(q.labels[1..]), true));
    0 <= i < |listed| && IsMatch(glob, listed[i], Name(q.labels, true)) && Key(listed[i]) in s.rules
  }

  function HitKey<T>(s: Index<T>, glob: Matcher, q: Name, i: int): RuleName
    requires Hit(s, glob, q, i)
  {
    Key(Listed(s, Name(FoldLabels(q.labels[1..]), true))[i])
  }

  ghost predicate SubHit<T>(s: Index<T>, glob: Matcher, q: Name, k: RuleName) {
    exists i :: Hit(s, glob, q, i) && HitKey(s, glob, q, i) == k
  }

  /** Does a rule of this name and kind cover the start name `q`?  A rule stored without the
      final dot covers only the same name asked without it. */
  predicate Covers(q: Name, k: RuleName) {
    if !k.name.fqdn then
      !q.fqdn && (k.Full? || k.Default?) && k.name.labels == FoldLabels(q.labels)
    else
      && |k.name.labels| <= |q.labels|
      && k.name.labels == FoldLabels(q.labels)[|q.labels| - |k.name.labels|..]
      && (k.Full? ==> |k.name.labels| == |q.labels|)
      && (k.Suffix? ==> |k.name.labels| < |q.labels|)
      && (k.Sub? ==> |k.name.labels| + 1 == |q.labels|)
  }

  ghost predicate Applies<T>(s: Index<T>, glob: Matcher, q: Name, k: RuleName) {
    k in s.rules && Covers(q, k) && (k.Sub? ==> SubHit(s, glob, q, k))
  }

  /** A rule, in whatever letters it was written, covers a name exactly when its own name is
      the tail of it but for capitals: the whole of it for a rule of the name itself, less
      than the whole for a suffix rule, all but one label for a one-level wildcard. */
  lemma CoversExactly(q: Name, r: RuleName)
    ensures Covers(q, Key(r)) <==>
            var d := |q.labels| - |r.name.labels|;
            && d >= 0 && SameLabels(r.name.labels, q.labels[d..])
            && (r.name.fqdn || (!q.fqdn && d == 0 && (r.Full? || r.Default?)))
            && (r.Full? ==> d == 0) && (r.Suffix? ==> d >= 1) && (r.Sub? ==> d == 1)
  {
    if |r.name.labels| <= |q.labels| {
      var d := |q.labels| - |r.name.labels|;
      FoldSameExactly(r.name.labels, q.labels[d..]);
      FoldDrop(q.labels, d);
    }
  }

  /** Specificity, smallest first: the name itself, its one-level wildcard, then at every
      ancestor from nearest to root the suffix rule before the default rule. */
  function Precedence(q: Name, k: RuleName): int {
    if !k.name.fqdn then (if k.Full? then 0 else 1)
    else
      var d := |q.labels| - |k.name.labels|;
      match k
      case Full(_) => 2
      case Sub(_, _) => 4
      case Suffix(_) => 3 + 2 * d
      case Default(_) => if d == 0 then 3 else 4 + 2 * d
  }

  /** At one name: the rule of the name itself, then the one-level wildcards of that parent,
      then the suffix rule, then the default rule. */
  predicate KindFirst(a: RuleName, b: RuleName) {
    (a.Full? && !b.Full?) || (a.Sub? && (b.Suffix? || b.Default?)) || (a.Suffix? && b.Default?)
  }

  /** Between covering rules a name stored without its dot goes first, then the longer name,
      then the kind. */
  lemma PrecedenceExactly(q: Name, a: RuleName, b: RuleName)
    requires Covers(q, a) && Covers(q, b)
    ensures Precedence(q, a) < Precedence(q, b) <==>
            || (!a.name.fqdn && b.name.fqdn)
            || (a.name.fqdn == b.name.fqdn
                && (|a.name.labels| > |b.name.labels| || (|a.name.labels| == |b.name.labels| && KindFirst(a, b))))
  {
  }

  /** `k` is the rule a full scan chooses; between wildcards of one parent the earliest listed. */
  ghost predicate Wins<T>(s: Index<T>, glob: Matcher, q: Name, k: RuleName) {
    && Applies(s, glob, q, k)
    && (forall k2 :: Applies(s, glob, q, k2) ==> Precedence(q, k) <= Precedence(q, k2))
    && (k.Sub? ==> exists i :: Hit(s, glob, q, i) && HitKey(s, glob, q, i) == k
                               && forall j :: 0 <= j < i ==> !Hit(s, glob, q, j))
  }

  /** The scan has at most one winner. */
  lemma WinnerUnique<T>(s: Index<T>, glob: Matcher, q: Name, k1: RuleName, k2: RuleName)
    requires Wins(s, glob, q, k1) && Wins(s, glob, q, k2)
    ensures k1 == k2
  {
    assert Precedence(q, k1) == Precedence(q, k2);
    if k1.Sub? && k2.Sub? {
      var i1 :| Hit(s, glob, q, i1) && HitKey(s, glob, q, i1) == k1 && forall j :: 0 <= j < i1 ==> !Hit(s, glob, q, j);
      var i2 :| Hit(s, glob, q, i2) && HitKey(s, glob, q, i2) == k2 && forall j :: 0 <= j < i2 ==> !Hit(s, glob, q, j);
    } else {
      assert |k1.name.labels| == |k2.name.labels|;
    }
  }

  ghost predicate IsLookup<T>(s: Index<T>, glob: Matcher, n: Name, r: Option<T>) {
    match r
    case None => forall k :: !Applies(s, glob, Start(n), k)
    case Some(v) => exists k :: Wins(s, glob, Start(n), k) && s.rules[k] == v
  }

  // ---------------------------------------------------------------- one level of the walk

  /** The least precedence still possible when the walk reaches a level. */
  function Floor(lvl: nat, fqdn: bool): int {
    if lvl == 0 then (if fqdn then 2 else 0) else if lvl == 1 then 4 else 3 + 2 * lvl
  }

  /** The walk stands at level `lvl` and nothing more specific covers `q`. */
  ghost predicate Reached<T>(s: Index<T>, glob: Matcher, q: Name, lvl: nat, fqdn: bool) {
    && lvl <= |q.labels|
    && (fqdn || (lvl == 0 && !q.fqdn))
    && (forall k :: Applies(s, glob, q, k) ==> Floor(lvl, fqdn) <= Precedence(q, k))
  }

  /** The folded name at a level of the walk. */
  function At(q: Name, lvl: nat, fqdn: bool): Name
    requires lvl <= |q.labels|
  {
    Name(FoldLabels(q.labels)[lvl..], fqdn)
  }

  ghost predicate NoHit<T>(s: Index<T>, glob: Matcher, q: Name) {
    forall i :: !Hit(s, glob, q, i)
  }

  /** Full, suffix and default rules found at a level win there, provided the kinds that are
      tried before them at that level found nothing. */
  lemma LevelWinner<T>(s: Index<T>, glob: Matcher, q: Name, lvl: nat, fqdn: bool, k: RuleName)
    requires Reached(s, glob, q, lvl, fqdn)
    requires k in s.rules && !k.Sub? && k.name == At(q, lvl, fqdn)
    requires k.Full? ==> lvl == 0
    requires k.Suffix? ==> lvl >= 1
    requires lvl == 1 ==> NoHit(s, glob, q)
    requires k.Default? && lvl == 0 ==> Full(k.name) !in s.rules
    requires k.Default? && lvl >= 1 ==> Suffix(k.name) !in s.rules
    ensures Wins(s, glob, q, k)
  {
    AtCovers(q, lvl, fqdn, k);
    forall k2 | Applies(s, glob, q, k2) ensures Precedence(q, k) <= Precedence(q, k2) {
      LevelBeats(s, glob, q, lvl, fqdn, k, k2);
    }
  }

  /** A rule stored under the name of a level covers what the walk started from. */
  lemma AtCovers(q: Name, lvl: nat, fqdn: bool, k: RuleName)
    requires lvl <= |q.labels| && (fqdn || (lvl == 0 && !q.fqdn))
    requires !k.Sub? && k.name == At(q, lvl, fqdn) && (k.Full? ==> lvl == 0) && (k.Suffix? ==> lvl >= 1)
    ensures Covers(q, k) && |k.name.labels| == |q.labels| - lvl && k.name.fqdn == fqdn
  {
    var f := FoldLabels(q.labels);
    WholeSlice(f);
    assert |q.labels| - |k.name.labels| == lvl;
  }

  lemma WholeSlice(f: seq<string>)
    ensures f[0..] == f
  {
  }

  /** No other applying rule is more specific than one found at the level. */
  lemma LevelBeats<T>(s: Index<T>, glob: Matcher, q: Name, lvl: nat, fqdn: bool, k: RuleName, k2: RuleName)
    requires Reached(s, glob, q, lvl, fqdn)
    requires k in s.rules && !k.Sub? && k.name == At(q, lvl, fqdn)
    requires k.Full? ==> lvl == 0
    requires k.Suffix? ==> lvl >= 1
    requires lvl == 1 ==> NoHit(s, glob, q)
    requires k.Default? && lvl == 0 ==> Full(k.name) !in s.rules
    requires k.Default? && lvl >= 1 ==> Suffix(k.name) !in s.rules
    requires Applies(s, glob, q, k2)
    ensures Precedence(q, k) <= Precedence(q, k2)
  {
    hide *;
    AppliesAbove(s, glob, q, lvl, fqdn, k2);
    AtCovers(q, lvl, fqdn, k);
    PrecedenceAt(q, lvl, fqdn, k);
    if !k2.Sub? {
      if k2.name == At(q, lvl, fqdn) {
        AtCoversBack(q, lvl, fqdn, k2);
        PrecedenceAt(q, lvl, fqdn, k2);
        NamesakeKinds(k, k2);
      } else {
        CoversAt(q, lvl, fqdn, k2);
      }
    }
  }

  /** What is known of an applying rule when the walk stands at a level. */
  lemma AppliesAbove<T>(s: Index<T>, glob: Matcher, q: Name, lvl: nat, fqdn: bool, k: RuleName)
    requires Reached(s, glob, q, lvl, fqdn) && Applies(s, glob, q, k) && (lvl == 1 ==> NoHit(s, glob, q))
    ensures lvl <= |q.labels| && (fqdn || (lvl == 0 && !q.fqdn))
    ensures k in s.rules && Covers(q, k) && Floor(lvl, fqdn) <= Precedence(q, k)
    ensures k.Sub? ==> lvl == 0 && Precedence(q, k) == 4
  {
  }

  lemma NamesakeKinds(k: RuleName, k2: RuleName)
    requires !k2.Sub? && k.name == k2.name
    ensures k2 == Full(k.name) || k2 == Suffix(k.name) || k2 == Default(k.name)
  {
  }

  lemma PrecedenceAt(q: Name, lvl: nat, fqdn: bool, k: RuleName)
    requires |k.name.labels| == |q.labels| - lvl && k.name.fqdn == fqdn && !k.Sub? && (k.Full? ==> lvl == 0)
    requires fqdn || lvl == 0
    ensures Precedence(q, k) ==
            if !fqdn then (if k.Full? then 0 else 1)
            else if k.Full? then 2 else if k.Suffix? then 3 + 2 * lvl else if lvl == 0 then 3 else 4 + 2 * lvl
  {
  }

  lemma AtCoversBack(q: Name, lvl: nat, fqdn: bool, k: RuleName)
    requires lvl <= |q.labels| && (fqdn || (lvl == 0 && !q.fqdn))
    requires Covers(q, k) && !k.Sub? && k.name == At(q, lvl, fqdn)
    ensures |k.name.labels| == |q.labels| - lvl && k.name.fqdn == fqdn
    ensures (k.Full? ==> lvl == 0) && (k.Suffix? ==> lvl >= 1)
  {
  }

  /** A covering rule as specific as a level allows is stored under that level's name. */
  lemma CoversAt(q: Name, lvl: nat, fqdn: bool, k: RuleName)
    requires lvl <= |q.labels| && (fqdn || (lvl == 0 && !q.fqdn))
    requires Covers(q, k) && Floor(lvl, fqdn) <= Precedence(q, k)
    ensures k.Sub? || k.name == At(q, lvl, fqdn) || Precedence(q, k) >= (if !fqdn then 2 else if lvl == 0 then 4 else 5 + 2 * lvl)
    ensures k.name == At(q, lvl, fqdn) ==>
              k == Full(At(q, lvl, fqdn)) || k == Suffix(At(q, lvl, fqdn)) || k == Default(At(q, lvl, fqdn)) || k.Sub?
  {
  }

  lemma LevelSub<T>(s: Index<T>, glob: Matcher, q: Name, i: int)
    requires Reached(s, glob, q, 1, true)
    requires Hit(s, glob, q, i) && forall j :: 0 <= j < i ==> !Hit(s, glob, q, j)
    requires Consistent(s)
    ensures Wins(s, glob, q, HitKey(s, glob, q, i))
  {
    FoldDrop(q.labels, 1);
    var w := Listed(s, Name(FoldLabels(q.labels[1..]), true))[i];
    assert w in Listed(s, Name(FoldLabels(q.labels[1..]), true));
  }

  /** When every kind tried at a level found nothing, the walk may move on. */
  lemma LevelPassed<T>(s: Index<T>, glob: Matcher, q: Name, lvl: nat, fqdn: bool)
    requires Reached(s, glob, q, lvl, fqdn)
    requires lvl == 0 ==> Full(At(q, lvl, fqdn)) !in s.rules
    requires lvl == 1 ==> NoHit(s, glob, q)
    requires lvl >= 1 ==> Suffix(At(q, lvl, fqdn)) !in s.rules
    requires Default(At(q, lvl, fqdn)) !in s.rules
    ensures !fqdn ==> Reached(s, glob, q, 0, true)
    ensures fqdn && lvl < |q.labels| ==> Reached(s, glob, q, lvl + 1, true)
    ensures fqdn && lvl == |q.labels| ==> forall k :: !Applies(s, glob, q, k)
  {
    forall k | Applies(s, glob, q, k)
      ensures (if !fqdn then 2 else if lvl == 0 then 4 else 5 + 2 * lvl) <= Precedence(q, k)
    {
      CoversAt(q, lvl, fqdn, k);
    }
  }

  // ---------------------------------------------------------------- the object

  class DomainMap<T> {
    var rules: map<RuleName, T>
    var wildcards: map<Name, seq<RuleName>>
    const glob: Matcher

    ghost function State(): Index<T>
      reads this
    {
      Index(rules, wildcards)
    }

    ghost predicate Valid()
      reads this
    {
      Consistent(State())
    }

    constructor (glob: Matcher)
      ensures Valid() && State() == Empty() && this.glob == glob
    {
      rules, wildcards := map[], map[];
      this.glob := glob;
    }

    method Insert(rule: RuleName, value: T) returns (old_: Option<T>)
      requires Valid()
      modifies this
      ensures Valid()
      ensures State() == Put(old(State()), Qualified(rule), value)
      ensures old_ == if Key(Qualified(rule)) in old(rules) then Some(old(rules)[Key(Qualified(rule))]) else None
    {
      var name := Qualified(rule);
      PutConsistent(State(), name, value);
      if name.Sub? {
        var listed := if Fold(name.name) in wildcards then wildcards[Fold(name.name)] else [];
        wildcards := wildcards[Fold(name.name) := listed + [name]];
      }
      old_ := if Key(name) in rules then Some(rules[Key(name)]) else None;
      rules := rules[Key(name) := value];
    }

    method Remove(rule: RuleName) returns (old_: Option<T>)
      requires Valid()
      modifies this
      ensures Valid()
      ensures State() == Drop(old(State()), rule)
      ensures old_ == if Key(rule) in old(rules) then Some(old(rules)[Key(rule)]) else None
    {
      DropConsistent(State(), rule);
      if rule.Sub? {
        var listed := if Fold(rule.name) in wildcards then wildcards[Fold(rule.name)] else [];
        wildcards := wildcards[Fold(rule.name) := Without(listed, Key(rule))];
      }
      old_ := if Key(rule) in rules then Some(rules[Key(rule)]) else None;
      rules := rules - {Key(rule)};
    }

    /** Bulk construction stores the names as they come, with or without the final dot. */
    constructor FromIter(glob: Matcher, items: seq<(RuleName, T)>)
      ensures Valid() && State() == PutAll(Empty(), items) && this.glob == glob
    {
      var m: map<RuleName, T> := map[];
      var ws: map<Name, seq<RuleName>> := map[];
      for i := 0 to |items|
        invariant Consistent(Index(m, ws))
        invariant PutAll(Empty(), items) == PutAll(Index(m, ws), items[i..])
      {
        var (n, v) := items[i];
        PutConsistent(Index(m, ws), n, v);
        if n.Sub? {
          ws := ws[Fold(n.name) := (if Fold(n.name) in ws then ws[Fold(n.name)] else []) + [n]];
        }
        m := m[Key(n) := v];
        assert items[i..][1..] == items[i + 1..];
      }
      rules, wildcards := m, ws;
      this.glob := glob;
    }

    /** The first listed wildcard that accepts a name and is still stored. */
    method FirstListed(listed: seq<RuleName>, last: Name) returns (i: nat)
      ensures i <= |listed|
      ensures i < |listed| ==> IsMatch(glob, listed[i], last) && Key(listed[i]) in rules
      ensures forall j :: 0 <= j < i ==> !(IsMatch(glob, listed[j], last) && Key(listed[j]) in rules)
    {
      i := 0;
      while i < |listed| && !(IsMatch(glob, listed[i], last) && Key(listed[i]) in rules)
        invariant i <= |listed|
        invariant forall j :: 0 <= j < i ==> !(IsMatch(glob, listed[j], last) && Key(listed[j]) in rules)
      {
        i := i + 1;
      }
    }

    /** Everything the walk tries at one level. */
    method Probe(ghost q: Name, name: Name, last: Name, lvl: nat) returns (r: Option<T>)
      requires Valid()
      requires Reached(State(), glob, q, lvl, name.fqdn) && name.labels == q.labels[lvl..]
      requires lvl >= 1 ==> last == Name(q.labels[lvl - 1..], true)
      ensures r.Some? ==> exists k :: Wins(State(), glob, q, k) && rules[k] == r.value
      ensures r.None? && !name.fqdn ==> Reached(State(), glob, q, 0, true)
      ensures r.None? && name.fqdn && lvl < |q.labels| ==> Reached(State(), glob, q, lvl + 1, true)
      ensures r.None? && name.fqdn && lvl == |q.labels| ==> forall k :: !Applies(State(), glob, q, k)
    {
      ghost var s := State();
      FoldDrop(q.labels, lvl);
      var here := Fold(name);
      if lvl == 0 && Full(here) in rules {
        LevelWinner(s, glob, q, lvl, name.fqdn, Full(here));
        return Some(rules[Full(here)]);
      }
      if lvl == 1 {
        var listed := if here in wildcards then wildcards[here] else [];
        var i := FirstListed(listed, last);
        if i < |listed| {
          LevelSub(s, glob, q, i);
          return Some(rules[Key(listed[i])]);
        }
      }
      if lvl >= 1 && Suffix(here) in rules {
        LevelWinner(s, glob, q, lvl, name.fqdn, Suffix(here));
        return Some(rules[Suffix(here)]);
      }
      if Default(here) in rules {
        LevelWinner(s, glob, q, lvl, name.fqdn, Default(here));
        return Some(rules[Default(here)]);
      }
      LevelPassed(s, glob, q, lvl, name.fqdn);
      return None;
    }

    /** The label walk. */
    method Find(n: Name) returns (r: Option<T>)
      requires Valid()
      ensures IsLookup(State(), glob, n, r)
    {
      if |rules| == 0 {
        return None;
      }
      var name := if IsWildcardName(n) then BaseName(n) else n;
      ghost var q := Start(n);
      var lvl := 0;
      var last := name;
      while true
        invariant lvl <= |q.labels| && name.labels == q.labels[lvl..]
        invariant lvl >= 1 ==> name.fqdn && last == Name(q.labels[lvl - 1..], true)
        invariant Reached(State(), glob, q, lvl, name.fqdn)
        decreases |name.labels|, if name.fqdn then 0 else 1
      {
        r := Probe(q, name, last, lvl);
        if r.Some? {
          return;
        }
        if !name.fqdn {
          name := Name(name.labels, true);
          continue;
        }
        if IsRoot(name) {
          break;
        }
        last := name;
        name := BaseName(last);
        lvl := lvl + 1;
      }
      return None;
    }
  }

  function PutAll<T>(s: Index<T>, items: seq<(RuleName, T)>): Index<T>
    decreases |items|
  {
    if items == [] then s else PutAll(Put(s, items[0].0, items[0].1), items[1..])
  }

  /** Bulk construction keeps every name as it is given, dot or no dot, each with the value
      that came last. */
  lemma {:induction false} PutAllHolds<T>(s: Index<T>, items: seq<(RuleName, T)>, k: RuleName)
    ensures k in PutAll(s, items).rules <==> k in s.rules || exists i :: 0 <= i < |items| && Key(items[i].0) == k
    ensures forall i :: 0 <= i < |items| && Key(items[i].0) == k && (forall j :: i < j < |items| ==> Key(items[j].0) != k) ==>
              k in PutAll(s, items).rules && PutAll(s, items).rules[k] == items[i].1
    ensures k in s.rules && (forall i :: 0 <= i < |items| ==> Key(items[i].0) != k) ==> PutAll(s, items).rules[k] == s.rules[k]
    decreases |items|
  {
    if items != [] {
      PutAllHolds(Put(s, items[0].0, items[0].1), items[1..], k);
      assert forall i :: 1 <= i < |items| ==> items[i] == items[1..][i - 1];
      if j :| 0 <= j < |items[1..]| && Key(items[1..][j].0) == k {
        assert Key(items[j + 1].0) == k;
      }
    }
  }

  /** The scan answers a lookup in one way only. */
  lemma LookupDetermined<T>(s: Index<T>, glob: Matcher, n: Name, r1: Option<T>, r2: Option<T>)
    requires IsLookup(s, glob, n, r1) && IsLookup(s, glob, n, r2)
    ensures r1 == r2
  {
    if r1.Some? && r2.Some? {
      var k1 :| Wins(s, glob, Start(n), k1) && s.rules[k1] == r1.value;
      var k2 :| Wins(s, glob, Start(n), k2) && s.rules[k2] == r2.value;
      WinnerUnique(s, glob, Start(n), k1, k2);
    }
  }

  // ---------------------------------------------------------------- histories

  datatype Op<T> = InsertOp(rule: RuleName, value: T) | RemoveOp(rule: RuleName)

  function Replay<T>(h: seq<Op<T>>): Index<T> {
    if h == [] then Empty()
    else
      var s := Replay(h[..|h| - 1]);
      match h[|h| - 1]
      case InsertOp(r, v) => Put(s, Qualified(r), v)
      case RemoveOp(r) => Drop(s, r)
  }

  /** The value most recently inserted under a key and not removed since. */
  function LastWrite<T>(h: seq<Op<T>>, k: RuleName): Option<T> {
    if h == [] then None
    else
      match h[|h| - 1]
      case InsertOp(r, v) => if Key(Qualified(r)) == k then Some(v) else LastWrite(h[..|h| - 1], k)
      case RemoveOp(r) => if Key(r) == k then None else LastWrite(h[..|h| - 1], k)
  }

  lemma {:induction false} ReplayHolds<T>(h: seq<Op<T>>)
    ensures Consistent(Replay(h))
    ensures forall k :: LastWrite(h, k) == if k in Replay(h).rules then Some(Replay(h).rules[k]) else None
    ensures forall k :: k in Replay(h).rules ==> k.name.fqdn
  {
    if h != [] {
      var init := h[..|h| - 1];
      ReplayHolds(init);
      match h[|h| - 1]
      case InsertOp(r, v) => PutConsistent(Replay(init), Qualified(r), v);
      case RemoveOp(r) => DropConsistent(Replay(init), r);
    }
  }

  /** After any history of insertions and removals, a lookup answers with the last value
      written under the rule a full scan of the live rules would choose, and answers nothing
      exactly when no live rule covers the name. */
  lemma LookupAfterHistory<T>(h: seq<Op<T>>, glob: Matcher, n: Name, r: Option<T>)
    requires IsLookup(Replay(h), glob, n, r)
    ensures r.Some? ==> exists k :: Wins(Replay(h), glob, Start(n), k) && LastWrite(h, k) == r
    ensures r.None? <==> forall k :: LastWrite(h, k).Some? && Covers(Start(n), k) ==>
                                       k.Sub? && !SubHit(Replay(h), glob, Start(n), k)
  {
    ReplayHolds(h);
    var s := Replay(h);
    if r.Some? {
      var k :| Wins(s, glob, Start(n), k) && s.rules[k] == r.value;
      assert LastWrite(h, k) == r;
      assert Applies(s, glob, Start(n), k);
    } else {
      forall k | LastWrite(h, k).Some? && Covers(Start(n), k)
        ensures k.Sub? && !SubHit(s, glob, Start(n), k)
      {
        assert !Applies(s, glob, Start(n), k);
      }
    }
  }

  /** A rule for a name answers every spelling of that name: after any history, inserting a
      full rule, or a default rule where no full rule of the name is live, decides the lookup
      of the name in whatever letters and with or without the final dot. */
  lemma EverySpellingAnswered<T>(h: seq<Op<T>>, glob: Matcher, r: RuleName, v: T, n: Name, found: Option<T>)
    requires (r.Full? || r.Default?) && SameLabels(r.name.labels, n.labels) && !IsWildcardName(n)
    requires r.Default? ==> forall k :: LastWrite(h, k).Some? && k.Full? ==> !SameLabels(k.name.labels, n.labels)
    requires IsLookup(Replay(h + [InsertOp(r, v)]), glob, n, found)
    ensures found == Some(v)
  {
    var h2 := h + [InsertOp(r, v)];
    assert h2[..|h|] == h;
    ReplayHolds(h);
    ReplayHolds(h2);
    var s, k := Replay(h2), Key(Qualified(r));
    CoversExactly(n, Qualified(r));
    assert n.labels[0..] == n.labels;
    assert Applies(s, glob, n, k);
    forall k2 | Applies(s, glob, n, k2) ensures Precedence(n, k) <= Precedence(n, k2) {
      NothingBefore(h, r, v, n, k2);
    }
    assert Wins(s, glob, n, k);
    LookupDetermined(s, glob, n, found, Some(v));
  }

  lemma NothingBefore<T>(h: seq<Op<T>>, r: RuleName, v: T, n: Name, k2: RuleName)
    requires (r.Full? || r.Default?) && SameLabels(r.name.labels, n.labels)
    requires r.Default? ==> forall k :: LastWrite(h, k).Some? && k.Full? ==> !SameLabels(k.name.labels, n.labels)
    requires LastWrite(h + [InsertOp(r, v)], k2).Some? && k2.name.fqdn && Key(k2) == k2 && Covers(n, k2)
    ensures Precedence(n, Key(Qualified(r))) <= Precedence(n, k2)
  {
    assert (h + [InsertOp(r, v)])[..|h|] == h;
    assert n.labels[0..] == n.labels;
    CoversExactly(n, k2);
  }

  /** Asking for `*.name` is asking for the name itself, with its final dot. */
  lemma StarAsksForParent<T>(s: Index<T>, glob: Matcher, labels: seq<string>, fqdn: bool, r: Option<T>)
    requires labels != [] ==> labels[0] != "*"
    ensures IsLookup(s, glob, Name(["*"] + labels, fqdn), r) <==> IsLookup(s, glob, Name(labels, true), r)
  {
    assert (["*"] + labels)[1..] == labels;
    assert Start(Name(["*"] + labels, fqdn)) == Name(labels, true) == Start(Name(labels, true));
  }

  // ---------------------------------------------------------------- agreement with is_match

  /** The index and `is_match` agree on a rule exactly when the rule is not spelled in other
      letters than the name it is equal to: the index ignores case, `is_match` does not. */
  lemma IndexAgreesWithMatchExactly(glob: Matcher, r: RuleName, q: Name)
    requires r.name.fqdn && !r.Sub?
    ensures (Covers(q, Key(r)) <==> IsMatch(glob, r, q)) <==>
            (r.Default? || FoldLabels(r.name.labels) != FoldLabels(q.labels) || r.name.labels == q.labels)
  {
    if |r.name.labels| == |q.labels| {
      assert FoldLabels(q.labels)[0..] == FoldLabels(q.labels);
    }
  }

  /** Histories written in lower case throughout. */
  ghost predicate LowerHistory<T>(h: seq<Op<T>>) {
    forall i :: 0 <= i < |h| && h[i].InsertOp? ==> Key(h[i].rule) == h[i].rule
  }

  lemma {:induction false} LowerListed<T>(h: seq<Op<T>>)
    requires LowerHistory(h)
    ensures forall p, w :: w in Listed(Replay(h), p) ==> Key(w) == w
  {
    if h != [] {
      var init := h[..|h| - 1];
      LowerListed(init);
      forall p, w | w in Listed(Replay(h), p) ensures Key(w) == w {
        assert w in Listed(Replay(init), p) || (h[|h| - 1].InsertOp? && w == Qualified(h[|h| - 1].rule));
      }
    }
  }

  /** In lower case the label walk is a scan with `is_match`: a live rule is considered for a
      name exactly when it matches it.  The root is the one name where they part, because the
      walk never looks for one-level wildcards there. */
  lemma WalkIsMatchScan<T>(h: seq<Op<T>>, glob: Matcher, q: Name, k: RuleName)
    requires LowerHistory(h) && Fold(q) == q && q.labels != []
    ensures Applies(Replay(h), glob, q, k) <==> LastWrite(h, k).Some? && IsMatch(glob, k, q)
  {
    ReplayHolds(h);
    LowerListed(h);
    var s := Replay(h);
    if k in s.rules {
      assert Key(k) == k;
      if k.Sub? {
        FoldDrop(q.labels, 1);
        var parent := Name(FoldLabels(q.labels[1..]), true);
        if IsMatch(glob, k, q) {
          assert k.name == parent;
          var w :| w in Listed(s, k.name) && Key(w) == k;
          var i :| 0 <= i < |Listed(s, parent)| && Listed(s, parent)[i] == w;
          assert Hit(s, glob, q, i);
        }
        if SubHit(s, glob, q, k) {
          var i :| Hit(s, glob, q, i) && HitKey(s, glob, q, i) == k;
          assert Listed(s, parent)[i] in Listed(s, parent);
        }
      } else {
        IndexAgreesWithMatchExactly(glob, k, q);
      }
    }
  }

  /** For one-level wildcards the walk and `is_match` agree on every name but the root: a
      listed wildcard is hit exactly when it matches the name as it was spelled. */
  lemma ListedWildcardHitExactly<T>(s: Index<T>, glob: Matcher, q: Name, w: RuleName)
    requires Consistent(s) && q.labels != [] && w.name.fqdn && w in Listed(s, Fold(w.name))
    ensures (exists i :: Hit(s, glob, q, i) && Listed(s, Name(FoldLabels(q.labels[1..]), true))[i] == w)
            <==> IsMatch(glob, w, Name(q.labels, true))
    ensures IsMatch(glob, w, Name(q.labels, true)) <==>
            w.name.labels == q.labels[1..] && (w.pattern == "" || glob(w.pattern, q.labels[0]))
  {
    var parent := Name(FoldLabels(q.labels[1..]), true);
    if IsMatch(glob, w, Name(q.labels, true)) {
      assert w.Sub? && w.name.labels == q.labels[1..] && Fold(w.name) == parent;
      var i :| 0 <= i < |Listed(s, parent)| && Listed(s, parent)[i] == w;
      assert Hit(s, glob, q, i);
    }
  }

  // ---------------------------------------------------------------- letter case of the query

  /** The stored key of the first listed wildcard that is hit, scanning from an index on. */
  function FirstHitFrom<T>(s: Index<T>, glob: Matcher, q: Name, i: nat): (k: Option<RuleName>)
    requires q.labels != []
    decreases |Listed(s, Name(FoldLabels(q.labels[1..]), true))| - i
  {
    if i >= |Listed(s, Name(FoldLabels(q.labels[1..]), true))| then None
    else if Hit(s, glob, q, i) then Some(HitKey(s, glob, q, i))
    else FirstHitFrom(s, glob, q, i + 1)
  }

  function FirstHit<T>(s: Index<T>, glob: Matcher, q: Name): Option<RuleName> {
    if q.labels == [] then None else FirstHitFrom(s, glob, q, 0)
  }

  lemma {:induction false} FirstHitFromMeans<T>(s: Index<T>, glob: Matcher, q: Name, i: nat)
    requires q.labels != []
    ensures FirstHitFrom(s, glob, q, i).None? ==> forall j :: i <= j ==> !Hit(s, glob, q, j)
    ensures FirstHitFrom(s, glob, q, i).Some? ==>
              exists j :: i <= j && Hit(s, glob, q, j) && HitKey(s, glob, q, j) == FirstHitFrom(s, glob, q, i).value
                          && forall m :: i <= m < j ==> !Hit(s, glob, q, m)
    decreases |Listed(s, Name(FoldLabels(q.labels[1..]), true))| - i
  {
    if i < |Listed(s, Name(FoldLabels(q.labels[1..]), true))| && !Hit(s, glob, q, i) {
      FirstHitFromMeans(s, glob, q, i + 1);
    }
  }

  ghost predicate IsFirstHit<T>(s: Index<T>, glob: Matcher, q: Name, k: RuleName) {
    exists i :: Hit(s, glob, q, i) && HitKey(s, glob, q, i) == k && forall j :: 0 <= j < i ==> !Hit(s, glob, q, j)
  }

  lemma FirstHitMeans<T>(s: Index<T>, glob: Matcher, q: Name)
    ensures FirstHit(s, glob, q).None? <==> NoHit(s, glob, q)
    ensures forall k :: IsFirstHit(s, glob, q, k) <==> FirstHit(s, glob, q) == Some(k)
  {
    if q.labels != [] {
      FirstHitFromMeans(s, glob, q, 0);
    }
  }

  /** Among the wildcards of one parent the one inserted first is asked first: inserting
      another rule, of whatever kind and name, never displaces the first hit. */
  lemma LaterRuleNeverDisplaces<T>(s: Index<T>, glob: Matcher, q: Name, r: RuleName, v: T, k: RuleName)
    requires Consistent(s) && FirstHit(s, glob, q) == Some(k)
    ensures FirstHit(Put(s, r, v), glob, q) == Some(k)
  {
    FirstHitMeans(s, glob, q);
    FirstHitMeans(Put(s, r, v), glob, q);
    var i :| Hit(s, glob, q, i) && HitKey(s, glob, q, i) == k && forall j :: 0 <= j < i ==> !Hit(s, glob, q, j);
    PutHits(s, glob, q, r, v, i);
    assert IsFirstHit(Put(s, r, v), glob, q, k);
  }

  lemma PutHits<T>(s: Index<T>, glob: Matcher, q: Name, r: RuleName, v: T, i: nat)
    requires Consistent(s) && Hit(s, glob, q, i)
    ensures Hit(Put(s, r, v), glob, q, i) && HitKey(Put(s, r, v), glob, q, i) == HitKey(s, glob, q, i)
    ensures forall j :: 0 <= j < i && !Hit(s, glob, q, j) ==> !Hit(Put(s, r, v), glob, q, j)
  {
    var parent := Name(FoldLabels(q.labels[1..]), true);
    var before, after := Listed(s, parent), Listed(Put(s, r, v), parent);
    assert before <= after;
    forall j | 0 <= j < i ensures after[j] == before[j] && Key(before[j]) in s.rules {
      assert before[j] in before;
    }
  }

  /** A rule for the name itself, which is tried before any wildcard. */
  predicate HasExactRule<T>(s: Index<T>, q: Name) {
    var f := FoldLabels(q.labels);
    || Full(Name(f, true)) in s.rules || Default(Name(f, true)) in s.rules
    || (!q.fqdn && (Full(Name(f, false)) in s.rules || Default(Name(f, false)) in s.rules))
  }

  lemma FoldedCovers(q: Name, k: RuleName)
    ensures Covers(Fold(q), k) <==> Covers(q, k)
    ensures Precedence(Fold(q), k) == Precedence(q, k)
  {
    FoldIdempotent(q.labels);
  }

  /** Only a rule for the name itself comes before a wildcard. */
  lemma BeforeWildcard<T>(s: Index<T>, glob: Matcher, q: Name)
    ensures HasExactRule(s, q) <==> exists k :: Applies(s, glob, q, k) && Precedence(q, k) < 4
  {
    var f := FoldLabels(q.labels);
    assert f[0..] == f;
    if HasExactRule(s, q) {
      var k := if !q.fqdn && Full(Name(f, false)) in s.rules then Full(Name(f, false))
               else if !q.fqdn && Default(Name(f, false)) in s.rules then Default(Name(f, false))
               else if Full(Name(f, true)) in s.rules then Full(Name(f, true)) else Default(Name(f, true));
      assert Applies(s, glob, q, k) && Precedence(q, k) < 4;
    }
    if k :| Applies(s, glob, q, k) && Precedence(q, k) < 4 {
      assert k.name.labels == f;
    }
  }

  lemma FirstHitApplies<T>(s: Index<T>, glob: Matcher, q: Name, k: RuleName)
    requires Consistent(s) && IsFirstHit(s, glob, q, k)
    ensures k.Sub? && Applies(s, glob, q, k)
  {
    var i :| Hit(s, glob, q, i) && HitKey(s, glob, q, i) == k;
    var parent := Name(FoldLabels(q.labels[1..]), true);
    FoldDrop(q.labels, 1);
    assert Listed(s, parent)[i] in Listed(s, parent);
  }

  /** The winner of the scan does not depend on how it is found: a wildcard wins when it is
      the first hit and no rule for the name itself exists, any other rule by precedence among
      its like and by standing before the first hit. */
  lemma WinsByKind<T>(s: Index<T>, glob: Matcher, q: Name, k: RuleName)
    requires Consistent(s)
    ensures k.Sub? ==> (Wins(s, glob, q, k) <==> !HasExactRule(s, q) && FirstHit(s, glob, q) == Some(k))
    ensures !k.Sub? ==> (Wins(s, glob, q, k) <==> LeastPlain(s, q, k) && (FirstHit(s, glob, q).Some? ==> Precedence(q, k) <= 4))
  {
    hide *;
    if k.Sub? {
      WildcardWins(s, glob, q, k);
    } else {
      PlainWins(s, glob, q, k);
    }
  }

  lemma WildcardWins<T>(s: Index<T>, glob: Matcher, q: Name, k: RuleName)
    requires Consistent(s) && k.Sub?
    ensures Wins(s, glob, q, k) <==> !HasExactRule(s, q) && FirstHit(s, glob, q) == Some(k)
  {
    hide FirstHit, HasExactRule, Hit;
    FirstHitMeans(s, glob, q);
    BeforeWildcard(s, glob, q);
    if FirstHit(s, glob, q) == Some(k) {
      FirstHitApplies(s, glob, q, k);
    }
  }

  lemma PlainWins<T>(s: Index<T>, glob: Matcher, q: Name, k: RuleName)
    requires Consistent(s) && !k.Sub?
    ensures Wins(s, glob, q, k) <==> LeastPlain(s, q, k) && (FirstHit(s, glob, q).Some? ==> Precedence(q, k) <= 4)
  {
    hide FirstHit, Hit;
    FirstHitMeans(s, glob, q);
    if FirstHit(s, glob, q).Some? {
      FirstHitApplies(s, glob, q, FirstHit(s, glob, q).value);
    }
  }

  /** The rule covers the name and no rule other than a wildcard comes before it. */
  ghost predicate LeastPlain<T>(s: Index<T>, q: Name, k: RuleName) {
    k in s.rules && Covers(q, k)
    && forall m :: m in s.rules && Covers(q, m) && !m.Sub? ==> Precedence(q, k) <= Precedence(q, m)
  }

  lemma LeastPlainFolded<T>(s: Index<T>, q: Name, k: RuleName)
    ensures LeastPlain(s, Fold(q), k) <==> LeastPlain(s, q, k)
    ensures HasExactRule(s, Fold(q)) <==> HasExactRule(s, q)
  {
    FoldIdempotent(q.labels);
    forall m: RuleName ensures (Covers(Fold(q), m) <==> Covers(q, m)) && Precedence(Fold(q), m) == Precedence(q, m) {
      FoldedCovers(q, m);
    }
  }

  /** The scan chooses the same rule for both names. */
  ghost predicate SameWinner<T>(s: Index<T>, glob: Matcher, q: Name, q2: Name) {
    forall k :: Wins(s, glob, q, k) <==> Wins(s, glob, q2, k)
  }

  /** A name asked in other letters than lower case is answered by the same rule exactly when
      a rule for the name itself exists, or the first wildcard hit is the same: wildcards are
      compared letter by letter, all other rules are not. */
  lemma CaseIrrelevantExactly<T>(s: Index<T>, glob: Matcher, q: Name)
    requires Consistent(s)
    ensures SameWinner(s, glob, q, Fold(q)) <==> HasExactRule(s, q) || FirstHit(s, glob, q) == FirstHit(s, glob, Fold(q))
  {
    FirstHitKind(s, glob, q);
    FirstHitKind(s, glob, Fold(q));
    ExactBeforeWildcard(s, glob, q);
    forall k ensures KindsAgree(s, glob, q, k) {
      KindsAgreeAt(s, glob, q, k);
    }
    if HasExactRule(s, q) || FirstHit(s, glob, q) == FirstHit(s, glob, Fold(q)) {
      forall k ensures Wins(s, glob, q, k) <==> Wins(s, glob, Fold(q), k) {
        assert KindsAgree(s, glob, q, k);
      }
    } else {
      var k := if FirstHit(s, glob, q).Some? then FirstHit(s, glob, q).value else FirstHit(s, glob, Fold(q)).value;
      assert KindsAgree(s, glob, q, k);
    }
  }

  /** Who wins, for the name as spelled and in lower case. */
  ghost predicate KindsAgree<T>(s: Index<T>, glob: Matcher, q: Name, k: RuleName) {
    var first, folded := FirstHit(s, glob, q), FirstHit(s, glob, Fold(q));
    && (k.Sub? ==>
          && (Wins(s, glob, q, k) <==> !HasExactRule(s, q) && first == Some(k))
          && (Wins(s, glob, Fold(q), k) <==> !HasExactRule(s, q) && folded == Some(k)))
    && (!k.Sub? ==>
          && (Wins(s, glob, q, k) <==> LeastPlain(s, q, k) && (first.Some? ==> Precedence(q, k) <= 4))
          && (Wins(s, glob, Fold(q), k) <==> LeastPlain(s, q, k) && (folded.Some? ==> Precedence(q, k) <= 4)))
  }

  lemma KindsAgreeAt<T>(s: Index<T>, glob: Matcher, q: Name, k: RuleName)
    requires Consistent(s)
    ensures KindsAgree(s, glob, q, k)
  {
    hide *;
    WinsByKind(s, glob, q, k);
    WinsByKind(s, glob, Fold(q), k);
    LeastPlainFolded(s, q, k);
    FoldedCovers(q, k);
    KindsAgreeFrom(s, glob, q, k);
  }

  lemma KindsAgreeFrom<T>(s: Index<T>, glob: Matcher, q: Name, k: RuleName)
    requires k.Sub? ==> (Wins(s, glob, q, k) <==> !HasExactRule(s, q) && FirstHit(s, glob, q) == Some(k))
    requires k.Sub? ==> (Wins(s, glob, Fold(q), k) <==> !HasExactRule(s, Fold(q)) && FirstHit(s, glob, Fold(q)) == Some(k))
    requires !k.Sub? ==> (Wins(s, glob, q, k) <==> LeastPlain(s, q, k) && (FirstHit(s, glob, q).Some? ==> Precedence(q, k) <= 4))
    requires !k.Sub? ==> (Wins(s, glob, Fold(q), k) <==>
                          LeastPlain(s, Fold(q), k) && (FirstHit(s, glob, Fold(q)).Some? ==> Precedence(Fold(q), k) <= 4))
    requires LeastPlain(s, Fold(q), k) <==> LeastPlain(s, q, k)
    requires HasExactRule(s, Fold(q)) <==> HasExactRule(s, q)
    requires Precedence(Fold(q), k) == Precedence(q, k)
    ensures KindsAgree(s, glob, q, k)
  {
  }

  lemma FirstHitKind<T>(s: Index<T>, glob: Matcher, q: Name)
    requires Consistent(s)
    ensures FirstHit(s, glob, q).Some? ==> FirstHit(s, glob, q).value.Sub?
  {
    FirstHitMeans(s, glob, q);
    if FirstHit(s, glob, q).Some? {
      FirstHitApplies(s, glob, q, FirstHit(s, glob, q).value);
    }
  }

  /** With a rule for the name itself, whatever wins stands before the wildcards. */
  lemma ExactBeforeWildcard<T>(s: Index<T>, glob: Matcher, q: Name)
    ensures HasExactRule(s, q) ==> forall k :: LeastPlain(s, q, k) ==> Precedence(q, k) < 4
  {
    BeforeWildcard(s, glob, q);
    if HasExactRule(s, q) {
      var x :| Applies(s, glob, q, x) && Precedence(q, x) < 4;
      forall k | LeastPlain(s, q, k) ensures Precedence(q, k) < 4 {
        assert x in s.rules && Covers(q, x) && !x.Sub?;
      }
    }
  }

  /** So under that condition a lookup gives the same answer in any spelling. */
  lemma LookupIgnoresCase<T>(s: Index<T>, glob: Matcher, n: Name, r: Option<T>, r2: Option<T>)
    requires Consistent(s) && IsLookup(s, glob, n, r) && IsLookup(s, glob, Fold(n), r2)
    requires HasExactRule(s, Start(n)) || FirstHit(s, glob, Start(n)) == FirstHit(s, glob, Fold(Start(n)))
    ensures r == r2
  {
    StartFolded(n);
    CaseIrrelevantExactly(s, glob, Start(n));
    if r.Some? && r2.Some? {
      var k :| Wins(s, glob, Start(n), k) && s.rules[k] == r.value;
      var k2 :| Wins(s, glob, Start(Fold(n)), k2) && s.rules[k2] == r2.value;
      WinnerUnique(s, glob, Start(n), k, k2);
    }
  }

  lemma StartFolded(n: Name)
    ensures Start(Fold(n)) == Fold(Start(n))
  {
    if n.labels != [] {
      WildcardLabel(n.labels[0]);
      FoldDrop(n.labels, 1);
    }
  }

  lemma WildcardLabel(s: string)
    ensures Lower(s) == "*" <==> s == "*"
  {
    if Lower(s) == "*" {
      assert Lower(s)[0] == LowerChar(s[0]) == '*';
    }
  }
}
