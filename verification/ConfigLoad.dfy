/** Reading configuration files (src/dns_conf.rs): the builder object, `conf-file` includes
    and the set of files already loaded.  The file system is a parameter: which paths exist,
    what they canonically are, and what their lines parse to. */
module ConfigLoad {
  import opened Dns
  import opened ConfigGroups

  /** `canonical` has the paths that exist; `lines` the files by canonical path. */
  datatype Files = Files(canonical: map<string, string>, lines: map<string, seq<Item>>) {
    /** Existing paths lead to files, and the canonical path of a file exists. */
    predicate Ok() {
      (forall p :: p in canonical ==> canonical[p] in lines) && (forall f :: f in lines ==> f in canonical)
    }

    predicate Exists(path: string) {
      path in canonical
    }

    /** What identifies a file: its canonical path, or the path itself if there is none. */
    function Key(path: string): string {
      if path in canonical then canonical[path] else path
    }

    function Unloaded(loaded: set<string>): set<string> {
      lines.Keys - loaded
    }
  }

  type Trace = (seq<Op>, set<string>)

  // ---------------------------------------------------------------- what loading does

  /** Loading one file: skipped when loaded before; registered before its lines are read. */
  function FileTrace(fs: Files, loaded: set<string>, path: string): (t: Trace)
    requires fs.Ok()
    ensures loaded + {fs.Key(path)} <= t.1
    decreases fs.Unloaded(loaded), 0, 0
  {
    var key := fs.Key(path);
    if key in loaded then ([], loaded)
    else if !fs.Exists(path) then ([], loaded + {key})
    else
      assert key in fs.Unloaded(loaded) && key !in fs.Unloaded(loaded + {key});
      var t := LinesTrace(fs, loaded + {key}, fs.lines[key]);
      ([Enter(key)] + t.0, t.1)
  }

  function LinesTrace(fs: Files, loaded: set<string>, items: seq<Item>): (t: Trace)
    requires fs.Ok()
    ensures loaded <= t.1
    decreases fs.Unloaded(loaded), 3, |items|
  {
    if items == [] then ([], loaded)
    else
      var head := LineTrace(fs, loaded, items[0]);
      assert fs.Unloaded(head.1) <= fs.Unloaded(loaded);
      var rest := LinesTrace(fs, head.1, items[1..]);
      (head.0 + rest.0, rest.1)
  }

  function LineTrace(fs: Files, loaded: set<string>, item: Item): (t: Trace)
    requires fs.Ok()
    ensures loaded <= t.1
    decreases fs.Unloaded(loaded), 2, 0
  {
    if item.Include? then
      var t := FilesTrace(fs, loaded, item.files, item.scope);
      ([Line(item)] + t.0, t.1)
    else ([Line(item)], loaded)
  }

  /** The files of one `conf-file`, each inside a frame of its own when a group is given. */
  function FilesTrace(fs: Files, loaded: set<string>, files: seq<string>, scope: Option<string>): (t: Trace)
    requires fs.Ok()
    ensures loaded <= t.1
    decreases fs.Unloaded(loaded), 1, |files|
  {
    if files == [] then ([], loaded)
    else
      var one := FileTrace(fs, loaded, files[0]);
      assert fs.Unloaded(one.1) <= fs.Unloaded(loaded);
      var rest := FilesTrace(fs, one.1, files[1..], scope);
      (Scoped(scope, one.0) + rest.0, rest.1)
  }

  /** With `-group` a file's lines run inside a frame of that group. */
  function Scoped(scope: Option<string>, ops: seq<Op>): seq<Op> {
    if scope.Some? then [Push(scope.value)] + ops + [Pop] else ops
  }

  lemma FilesStep(fs: Files, loaded: set<string>, files: seq<string>, scope: Option<string>)
    requires fs.Ok() && files != []
    ensures var one := FileTrace(fs, loaded, files[0]);
            var rest := FilesTrace(fs, one.1, files[1..], scope);
            FilesTrace(fs, loaded, files, scope) == (Scoped(scope, one.0) + rest.0, rest.1)
  {
  }

  // ---------------------------------------------------------------- the builder

  class ConfBuilder {
    var stack: seq<Frame>
    var groups: map<string, RuleGroup>
    var globals: map<string, nat>
    var unscoped: seq<string>
    var clients: seq<(string, string)>
    var loaded: set<string>
    const fs: Files

    function View(): State
      reads this
    {
      State(stack, groups, globals, unscoped, clients)
    }

    constructor (fs: Files)
      ensures View() == Start() && loaded == {} && this.fs == fs
    {
      stack, groups, globals, unscoped, clients, loaded := [], map[], map[], [], [], {};
      this.fs := fs;
    }

    method GroupBegin(group: string, inherit: Option<string>)
      modifies this`stack
      ensures View() == Opened(old(View()), group, inherit)
    {
      var source := inherit;
      if source.None? && |stack| > 1 {
        source := Some("parent");
      }
      var inherited: Option<RuleGroup> := None;
      if source.Some? && source.value != "none" {
        if source.value == "parent" {
          if |stack| > 0 {
            inherited := Some(stack[|stack| - 1].body);
          }
        } else if source.value == DEFAULT_GROUP {
          if DEFAULT_GROUP in groups {
            inherited := Some(groups[DEFAULT_GROUP]);
          } else {
            inherited := FindFrame(DEFAULT_GROUP);
          }
        } else if source.value in groups {
          inherited := Some(groups[source.value]);
        }
      }
      var rules := EmptyGroup();
      if inherited.Some? {
        rules := Merge(rules, inherited.value);
      }
      stack := stack + [Frame(group, rules)];
    }

    /** The lowest frame of a name. */
    method FindFrame(name: string) returns (body: Option<RuleGroup>)
      ensures body == FirstNamed(stack, name)
    {
      for i := 0 to |stack|
        invariant FirstNamed(stack, name) == FirstNamed(stack[i..], name)
      {
        if stack[i].name == name {
          return Some(stack[i].body);
        }
        assert stack[i..][1..] == stack[i + 1..];
      }
      return None;
    }

    /** Close the innermost frame, if there is one. */
    method PopGroup()
      modifies this`stack, this`groups
      ensures View() == Popped(old(View()))
    {
      if |stack| > 0 {
        var f := stack[|stack| - 1];
        stack := stack[..|stack| - 1];
        groups := groups[f.name := Merge(Entry(groups, f.name), f.body)];
      }
    }

    /** One line that includes nothing. */
    method ConfigPlain(item: Item)
      requires !item.Include?
      modifies this`stack, this`groups, this`globals, this`unscoped, this`clients
      ensures View() == NextLine(old(View()), item)
    {
      var inGroup := |stack| > 1;
      if inGroup && !AllowedInGroup(item) {
        return;
      }
      if |stack| == 0 {
        stack := [Frame(DEFAULT_GROUP, EmptyGroup())];
      }
      var top := stack[|stack| - 1];
      match item {
        case Param(name, value) =>
          if inGroup {
            stack := stack[|stack| - 1 := top.(body := top.body.(params := Assign(top.body.params, name, value)))];
          } else {
            globals := Assign(globals, name, value);
          }
        case GlobalOnly(name, value) => globals := Assign(globals, name, value);
        case Unscoped(text) => unscoped := unscoped + [text];
        case RuleLine(rule) =>
          stack := stack[|stack| - 1 := top.(body := top.body.(rules := top.body.rules + [rule]))];
        case Begin(group, inherit) => GroupBegin(group, inherit);
        case End => PopGroup();
        case Client(client, target) =>
          clients := clients + [(client, if target == "" then top.name else target)];
        case Blank =>
      }
    }

    /** One line, includes and all. */
    method ConfigLine(item: Item)
      requires fs.Ok()
      modifies this
      ensures View() == RunFrom(old(View()), LineTrace(fs, old(loaded), item).0)
      ensures loaded == LineTrace(fs, old(loaded), item).1
      decreases fs.Unloaded(loaded), 2, 0
    {
      ghost var s0 := View();
      RunOne(s0, Line(item));
      if !item.Include? {
        ConfigPlain(item);
        return;
      }
      if |stack| == 0 {
        stack := [Frame(DEFAULT_GROUP, EmptyGroup())];
      }
      RunFromConcat(s0, [Line(item)], FilesTrace(fs, loaded, item.files, item.scope).0);
      LoadFiles(item.files, item.scope);
    }

    /** The files of one `conf-file` line. */
    method LoadFiles(files: seq<string>, scope: Option<string>)
      requires fs.Ok()
      modifies this
      ensures View() == RunFrom(old(View()), FilesTrace(fs, old(loaded), files, scope).0)
      ensures loaded == FilesTrace(fs, old(loaded), files, scope).1
      decreases fs.Unloaded(loaded), 1, 0
    {
      hide Scoped, FileTrace, Next;
      ghost var whole := FilesTrace(fs, loaded, files, scope);
      assert files[0..] == files;
      for i := 0 to |files|
        invariant old(loaded) <= loaded
        invariant RunFrom(old(View()), whole.0) == RunFrom(View(), FilesTrace(fs, loaded, files[i..], scope).0)
        invariant whole.1 == FilesTrace(fs, loaded, files[i..], scope).1
      {
        FilesStep(fs, loaded, files[i..], scope);
        assert files[i..][1..] == files[i + 1..];
        ghost var one := FileTrace(fs, loaded, files[i]);
        RunFromConcat(View(), Scoped(scope, one.0), FilesTrace(fs, one.1, files[i + 1..], scope).0);
        LoadScoped(files[i], scope);
      }
    }

    /** One included file, with its frame around it. */
    method LoadScoped(path: string, scope: Option<string>)
      requires fs.Ok()
      modifies this
      ensures View() == RunFrom(old(View()), Scoped(scope, FileTrace(fs, old(loaded), path).0))
      ensures loaded == FileTrace(fs, old(loaded), path).1
      decreases fs.Unloaded(loaded), 0, 1
    {
      ghost var s0 := View();
      if scope.Some? {
        RunWrapped(s0, scope.value, FileTrace(fs, loaded, path).0);
        stack := stack + [Frame(scope.value, EmptyGroup())];
      }
      LoadResolvedFile(path);
      if scope.Some? {
        PopGroup();
      }
    }

    /** The loader.  It terminates on every include graph: each file it recurses into is one
        fewer left to load. */
    method LoadResolvedFile(path: string)
      requires fs.Ok()
      modifies this
      ensures View() == RunFrom(old(View()), FileTrace(fs, old(loaded), path).0)
      ensures loaded == FileTrace(fs, old(loaded), path).1
      decreases fs.Unloaded(loaded), 0, 0
    {
      var key := fs.Key(path);
      if key in loaded {
        return;
      }
      loaded := loaded + {key};
      if fs.Exists(path) {
        var items := fs.lines[key];
        assert key in fs.Unloaded(old(loaded)) && key !in fs.Unloaded(loaded);
        ghost var whole := LinesTrace(fs, loaded, items);
        RunFromConcat(View(), [Enter(key)], whole.0);
        RunOne(View(), Enter(key));
        assert items[0..] == items;
        for i := 0 to |items|
          invariant old(loaded) + {key} <= loaded
          invariant RunFrom(old(View()), whole.0) == RunFrom(View(), LinesTrace(fs, loaded, items[i..]).0)
          invariant whole.1 == LinesTrace(fs, loaded, items[i..]).1
        {
          assert items[i..][1..] == items[i + 1..];
          ghost var head := LineTrace(fs, loaded, items[i]);
          RunFromConcat(View(), head.0, LinesTrace(fs, head.1, items[i + 1..]).0);
          FewerLeft(fs, old(loaded), loaded, key);
          ConfigLine(items[i]);
        }
      }
    }

    /** Blocks still open at the end are merged into their groups, bottom to top. */
    method FinishGroups()
      modifies this`stack, this`groups
      ensures groups == Built(old(View())) && stack == []
    {
      for i := 0 to |stack|
        invariant stack == old(stack)
        invariant groups == MergeAll(old(groups), stack[..i])
      {
        MergeNext(old(groups), stack, i);
        groups := groups[stack[i].name := Merge(Entry(groups, stack[i].name), stack[i].body)];
      }
      assert stack[..|stack|] == stack;
      stack := [];
    }
  }

  lemma MergeNext(groups: map<string, RuleGroup>, frames: seq<Frame>, i: nat)
    requires i < |frames|
    ensures MergeAll(groups, frames[..i + 1]) == MergeFrame(MergeAll(groups, frames[..i]), frames[i])
  {
    assert frames[..i + 1][..i] == frames[..i];
  }

  lemma FewerLeft(fs: Files, before: set<string>, now: set<string>, key: string)
    requires key in fs.lines && key !in before && before + {key} <= now
    ensures fs.Unloaded(now) < fs.Unloaded(before)
  {
    assert key in fs.Unloaded(before) && key !in fs.Unloaded(now);
  }

  lemma RunOne(s: State, op: Op)
    ensures RunFrom(s, [op]) == Next(s, op)
  {
    assert [op][..0] == [];
    assert RunFrom(s, []) == s;
  }

  lemma RunWrapped(s: State, g: string, ops: seq<Op>)
    ensures RunFrom(s, [Push(g)] + ops + [Pop]) == Popped(RunFrom(Next(s, Push(g)), ops))
  {
    RunFromConcat(s, [Push(g)] + ops, [Pop]);
    RunFromConcat(s, [Push(g)], ops);
    RunOne(s, Push(g));
    RunOne(RunFrom(s, [Push(g)] + ops), Pop);
  }

  // ---------------------------------------------------------------- every file at most once

  function Entered(ops: seq<Op>): seq<string> {
    if ops == [] then []
    else (if ops[0].Enter? then [ops[0].file] else []) + Entered(ops[1..])
  }

  lemma ConsSplit<T>(a: seq<T>, b: seq<T>)
    requires a != []
    ensures a == [a[0]] + a[1..] && a + b == [a[0]] + (a[1..] + b)
  {
  }

  lemma EnteredCons(op: Op, ops: seq<Op>)
    ensures Entered([op] + ops) == (if op.Enter? then [op.file] else []) + Entered(ops)
  {
    assert ([op] + ops)[1..] == ops;
  }

  lemma Associative<T>(x: seq<T>, y: seq<T>, z: seq<T>)
    ensures x + (y + z) == (x + y) + z
  {
  }

  lemma {:induction false} EnteredConcat(a: seq<Op>, b: seq<Op>)
    ensures Entered(a + b) == Entered(a) + Entered(b)
  {
    if a == [] {
      assert a + b == b;
    } else {
      hide *;
      EnteredConcat(a[1..], b);
      ConsSplit(a, b);
      EnteredCons(a[0], a[1..]);
      EnteredCons(a[0], a[1..] + b);
      Associative(if a[0].Enter? then [a[0].file] else [], Entered(a[1..]), Entered(b));
    }
  }

  /** The files a stretch of loading parses: all new, each once, all registered. */
  ghost predicate ParsesOnce(fs: Files, loaded: set<string>, t: Trace) {
    var es := Entered(t.0);
    && (forall i :: 0 <= i < |es| ==> es[i] !in loaded && es[i] in t.1 && es[i] in fs.lines)
    && (forall i, j :: 0 <= i < j < |es| ==> es[i] != es[j])
    && (forall p :: p in t.1 && p !in loaded && p in fs.lines ==> p in es)
  }

  lemma ParsesOnceJoin(fs: Files, loaded: set<string>, a: Trace, b: Trace)
    requires loaded <= a.1 <= b.1 && ParsesOnce(fs, loaded, a) && ParsesOnce(fs, a.1, b)
    ensures ParsesOnce(fs, loaded, (a.0 + b.0, b.1))
  {
    EnteredConcat(a.0, b.0);
  }

  lemma ParsesOnceSilent(fs: Files, loaded: set<string>, before: seq<Op>, t: Trace, after: seq<Op>)
    requires Entered(before) == [] && Entered(after) == [] && ParsesOnce(fs, loaded, t)
    ensures ParsesOnce(fs, loaded, (before + t.0 + after, t.1))
  {
    EnteredConcat(before, t.0);
    EnteredConcat(before + t.0, after);
    assert [] + Entered(t.0) == Entered(t.0) && Entered(t.0) + [] == Entered(t.0);
  }

  /** All files that these lines include are registered. */
  ghost predicate IncludesIn(fs: Files, items: seq<Item>, loaded: set<string>) {
    forall i, path :: 0 <= i < |items| && items[i].Include? && path in items[i].files ==> fs.Key(path) in loaded
  }

  /** Whatever a parsed file includes is registered in the end. */
  ghost predicate Complete(fs: Files, t: Trace) {
    forall f :: f in Entered(t.0) && f in fs.lines ==> IncludesIn(fs, fs.lines[f], t.1)
  }

  ghost predicate GoodLoad(fs: Files, loaded: set<string>, t: Trace) {
    ParsesOnce(fs, loaded, t) && Complete(fs, t)
  }

  lemma GoodJoin(fs: Files, loaded: set<string>, a: Trace, b: Trace)
    requires loaded <= a.1 <= b.1 && GoodLoad(fs, loaded, a) && GoodLoad(fs, a.1, b)
    ensures GoodLoad(fs, loaded, (a.0 + b.0, b.1))
  {
    ParsesOnceJoin(fs, loaded, a, b);
    EnteredConcat(a.0, b.0);
  }

  lemma GoodSilent(fs: Files, loaded: set<string>, before: seq<Op>, t: Trace, after: seq<Op>)
    requires Entered(before) == [] && Entered(after) == [] && GoodLoad(fs, loaded, t)
    ensures GoodLoad(fs, loaded, (before + t.0 + after, t.1))
  {
    ParsesOnceSilent(fs, loaded, before, t, after);
    EnteredConcat(before, t.0);
    EnteredConcat(before + t.0, after);
    assert [] + Entered(t.0) == Entered(t.0) && Entered(t.0) + [] == Entered(t.0);
  }

  lemma OneSilent(op: Op)
    requires !op.Enter?
    ensures Entered([op]) == []
  {
    assert [op][1..] == [];
  }

  lemma GoodScoped(fs: Files, loaded: set<string>, scope: Option<string>, t: Trace)
    requires GoodLoad(fs, loaded, t)
    ensures GoodLoad(fs, loaded, (Scoped(scope, t.0), t.1))
  {
    if scope.Some? {
      OneSilent(Push(scope.value));
      OneSilent(Pop);
      GoodSilent(fs, loaded, [Push(scope.value)], t, [Pop]);
    }
  }

  lemma GoodEnter(fs: Files, loaded: set<string>, key: string, t: Trace)
    requires key in fs.lines && key !in loaded && loaded + {key} <= t.1
    requires GoodLoad(fs, loaded + {key}, t) && IncludesIn(fs, fs.lines[key], t.1)
    ensures GoodLoad(fs, loaded, ([Enter(key)] + t.0, t.1))
  {
    assert ([Enter(key)] + t.0)[1..] == t.0;
    assert Entered([Enter(key)] + t.0) == [key] + Entered(t.0);
  }

  /** Loading a file, on any include graph: each canonical file is parsed at most once, only
      if it was not loaded before, and everything a parsed file includes is loaded as well. */
  lemma {:induction false} FileParsedOnce(fs: Files, loaded: set<string>, path: string)
    requires fs.Ok()
    ensures GoodLoad(fs, loaded, FileTrace(fs, loaded, path))
    decreases fs.Unloaded(loaded), 0, 0
  {
    var key := fs.Key(path);
    if key !in loaded {
      if fs.Exists(path) {
        FewerLeft(fs, loaded, loaded + {key}, key);
        LinesParsedOnce(fs, loaded + {key}, fs.lines[key]);
        GoodEnter(fs, loaded, key, LinesTrace(fs, loaded + {key}, fs.lines[key]));
      }
    }
  }

  lemma {:induction false} LinesParsedOnce(fs: Files, loaded: set<string>, items: seq<Item>)
    requires fs.Ok()
    ensures GoodLoad(fs, loaded, LinesTrace(fs, loaded, items))
    ensures IncludesIn(fs, items, LinesTrace(fs, loaded, items).1)
    decreases fs.Unloaded(loaded), 3, |items|
  {
    if items != [] {
      var head := LineTrace(fs, loaded, items[0]);
      LineParsedOnce(fs, loaded, items[0]);
      assert fs.Unloaded(head.1) <= fs.Unloaded(loaded);
      LinesParsedOnce(fs, head.1, items[1..]);
      GoodJoin(fs, loaded, head, LinesTrace(fs, head.1, items[1..]));
      assert items == [items[0]] + items[1..];
    }
  }

  lemma {:induction false} LineParsedOnce(fs: Files, loaded: set<string>, item: Item)
    requires fs.Ok()
    ensures GoodLoad(fs, loaded, LineTrace(fs, loaded, item))
    ensures item.Include? ==> forall path :: path in item.files ==> fs.Key(path) in LineTrace(fs, loaded, item).1
    decreases fs.Unloaded(loaded), 2, 0
  {
    OneSilent(Line(item));
    if item.Include? {
      var t := FilesTrace(fs, loaded, item.files, item.scope);
      FilesParsedOnce(fs, loaded, item.files, item.scope);
      FilesRegistered(fs, loaded, item.files, item.scope);
      GoodSilent(fs, loaded, [Line(item)], t, []);
      assert [Line(item)] + t.0 + [] == [Line(item)] + t.0;
    }
  }

  lemma {:induction false} FilesRegistered(fs: Files, loaded: set<string>, files: seq<string>, scope: Option<string>)
    requires fs.Ok()
    ensures forall path :: path in files ==> fs.Key(path) in FilesTrace(fs, loaded, files, scope).1
    decreases |files|
  {
    if files != [] {
      FilesRegistered(fs, FileTrace(fs, loaded, files[0]).1, files[1..], scope);
      FilesStep(fs, loaded, files, scope);
      assert files == [files[0]] + files[1..];
    }
  }

  lemma {:induction false} FilesParsedOnce(fs: Files, loaded: set<string>, files: seq<string>, scope: Option<string>)
    requires fs.Ok()
    ensures GoodLoad(fs, loaded, FilesTrace(fs, loaded, files, scope))
    decreases fs.Unloaded(loaded), 1, |files|
  {
    if files != [] {
      var one := FileTrace(fs, loaded, files[0]);
      FileParsedOnce(fs, loaded, files[0]);
      assert fs.Unloaded(one.1) <= fs.Unloaded(loaded);
      FilesParsedOnce(fs, one.1, files[1..], scope);
      FilesStep(fs, loaded, files, scope);
      GoodScoped(fs, loaded, scope, one);
      GoodJoin(fs, loaded, (Scoped(scope, one.0), one.1), FilesTrace(fs, one.1, files[1..], scope));
    }
  }

  // ---------------------------------------------------------------- every line, in order

  /** The lines among some operations. */
  function LinesOf(ops: seq<Op>): seq<Item> {
    if ops == [] then [] else (if ops[0].Line? then [ops[0].item] else []) + LinesOf(ops[1..])
  }

  function FileLines(fs: Files, file: string): multiset<Item> {
    if file in fs.lines then multiset(fs.lines[file]) else multiset{}
  }

  /** All lines of some files. */
  function LinesIn(fs: Files, files: seq<string>): multiset<Item> {
    if files == [] then multiset{}
    else FileLines(fs, files[0]) + LinesIn(fs, files[1..])
  }

  /** `a` occurs in `x` in this order, perhaps with other items in between. */
  ghost predicate Within(a: seq<Item>, x: seq<Item>)
    decreases |a|
  {
    a == [] || exists i :: 0 <= i < |x| && x[i] == a[0] && Within(a[1..], x[i + 1..])
  }

  lemma LinesOfCons(op: Op, ops: seq<Op>)
    ensures LinesOf([op] + ops) == (if op.Line? then [op.item] else []) + LinesOf(ops)
  {
    assert ([op] + ops)[1..] == ops;
  }

  lemma {:induction false} LinesOfConcat(a: seq<Op>, b: seq<Op>)
    ensures LinesOf(a + b) == LinesOf(a) + LinesOf(b)
  {
    if a == [] {
      assert a + b == b;
    } else {
      hide *;
      LinesOfConcat(a[1..], b);
      ConsSplit(a, b);
      LinesOfCons(a[0], a[1..]);
      LinesOfCons(a[0], a[1..] + b);
      Associative(if a[0].Line? then [a[0].item] else [], LinesOf(a[1..]), LinesOf(b));
    }
  }

  lemma LinesInCons(fs: Files, file: string, files: seq<string>)
    ensures LinesIn(fs, [file] + files) == FileLines(fs, file) + LinesIn(fs, files)
  {
    assert ([file] + files)[1..] == files;
  }

  lemma {:induction false} LinesInConcat(fs: Files, a: seq<string>, b: seq<string>)
    ensures LinesIn(fs, a + b) == LinesIn(fs, a) + LinesIn(fs, b)
  {
    if a == [] {
      assert a + b == b;
    } else {
      hide *;
      LinesInConcat(fs, a[1..], b);
      ConsSplit(a, b);
      LinesInCons(fs, a[0], a[1..]);
      LinesInCons(fs, a[0], a[1..] + b);
      Regrouped(FileLines(fs, a[0]), LinesIn(fs, a[1..]), LinesIn(fs, b));
    }
  }

  lemma Regrouped(x: multiset<Item>, y: multiset<Item>, z: multiset<Item>)
    ensures x + (y + z) == (x + y) + z
  {
  }

  lemma WithinFrom(a: seq<Item>, x: seq<Item>, i: nat)
    requires a != [] && i < |x| && x[i] == a[0] && Within(a[1..], x[i + 1..])
    ensures Within(a, x)
  {
  }

  lemma TailOfMiddle(p: seq<Item>, x: seq<Item>, q: seq<Item>, i: nat)
    requires i < |x|
    ensures |p| + i < |p + x + q|
    ensures (p + x + q)[|p| + i] == x[i] && (p + x + q)[|p| + i + 1..] == [] + x[i + 1..] + q
  {
  }

  lemma WithinAt(a: seq<Item>, x: seq<Item>) returns (i: nat)
    requires a != [] && Within(a, x)
    ensures i < |x| && x[i] == a[0] && Within(a[1..], x[i + 1..])
  {
    i :| 0 <= i < |x| && x[i] == a[0] && Within(a[1..], x[i + 1..]);
  }

  lemma {:induction false} WithinMore(a: seq<Item>, p: seq<Item>, x: seq<Item>, q: seq<Item>)
    requires Within(a, x)
    ensures Within(a, p + x + q)
    decreases |a|
  {
    if a != [] {
      hide *;
      var i := WithinAt(a, x);
      WithinMore(a[1..], [], x[i + 1..], q);
      TailOfMiddle(p, x, q, i);
      WithinFrom(a, p + x + q, |p| + i);
    }
  }

  lemma WithinCons(item: Item, a: seq<Item>, y: seq<Item>, x: seq<Item>)
    requires Within(a, x)
    ensures Within([item] + a, [item] + y + x)
  {
    WithinMore(a, y, x, []);
    assert y + x + [] == ([item] + y + x)[1..] && ([item] + a)[1..] == a;
    assert ([item] + y + x)[0] == ([item] + a)[0];
  }

  /** Every file that is entered has all its lines among the operations, in order. */
  ghost predicate InOrder(fs: Files, ops: seq<Op>) {
    forall f :: f in Entered(ops) && f in fs.lines ==> Within(fs.lines[f], LinesOf(ops))
  }

  lemma InOrderJoin(fs: Files, a: seq<Op>, b: seq<Op>)
    requires InOrder(fs, a) && InOrder(fs, b)
    ensures InOrder(fs, a + b)
    ensures LinesIn(fs, Entered(a + b)) == LinesIn(fs, Entered(a)) + LinesIn(fs, Entered(b))
  {
    hide Within, LinesOf, LinesIn, Entered;
    EnteredConcat(a, b);
    LinesInConcat(fs, Entered(a), Entered(b));
    forall f | f in Entered(a + b) && f in fs.lines ensures Within(fs.lines[f], LinesOf(a + b)) {
      assert f in Entered(a) || f in Entered(b);
      WithinEither(fs.lines[f], a, b);
    }
  }

  lemma WithinEither(items: seq<Item>, a: seq<Op>, b: seq<Op>)
    requires Within(items, LinesOf(a)) || Within(items, LinesOf(b))
    ensures Within(items, LinesOf(a + b))
  {
    hide *;
    LinesOfConcat(a, b);
    if Within(items, LinesOf(a)) {
      WithinMore(items, [], LinesOf(a), LinesOf(b));
      assert [] + LinesOf(a) == LinesOf(a);
    } else {
      WithinMore(items, LinesOf(a), LinesOf(b), []);
      assert LinesOf(a) + LinesOf(b) + [] == LinesOf(a) + LinesOf(b);
    }
  }

  lemma OneOp(fs: Files, op: Op)
    requires !op.Enter?
    ensures InOrder(fs, [op]) && Entered([op]) == [] && LinesOf([op]) == if op.Line? then [op.item] else []
  {
    assert [op][1..] == [];
  }

  lemma ScopedLines(fs: Files, scope: Option<string>, ops: seq<Op>)
    requires InOrder(fs, ops)
    ensures InOrder(fs, Scoped(scope, ops)) && Entered(Scoped(scope, ops)) == Entered(ops)
    ensures LinesOf(Scoped(scope, ops)) == LinesOf(ops)
  {
    if scope.Some? {
      var push := [Push(scope.value)];
      OneOp(fs, Push(scope.value));
      OneOp(fs, Pop);
      InOrderJoin(fs, push, ops);
      InOrderJoin(fs, push + ops, [Pop]);
      EnteredConcat(push, ops);
      EnteredConcat(push + ops, [Pop]);
      LinesOfConcat(push, ops);
      LinesOfConcat(push + ops, [Pop]);
      assert [] + Entered(ops) + [] == Entered(ops) && [] + LinesOf(ops) + [] == LinesOf(ops);
    }
  }

  lemma EnterLines(fs: Files, key: string, ops: seq<Op>)
    requires key in fs.lines && InOrder(fs, ops) && Within(fs.lines[key], LinesOf(ops))
    ensures InOrder(fs, [Enter(key)] + ops) && LinesOf([Enter(key)] + ops) == LinesOf(ops)
    ensures LinesIn(fs, Entered([Enter(key)] + ops)) == multiset(fs.lines[key]) + LinesIn(fs, Entered(ops))
  {
    assert ([Enter(key)] + ops)[1..] == ops;
    assert [] + LinesOf(ops) == LinesOf(ops);
    assert ([key] + Entered(ops))[1..] == Entered(ops);
  }

  /** Nothing is lost, repeated or made up in loading: the operations hold exactly the lines
      of the files that are entered, and those of each file in the order of the file. */
  lemma {:induction false} EveryLineOnce(fs: Files, loaded: set<string>, path: string)
    requires fs.Ok()
    ensures var ops := FileTrace(fs, loaded, path).0;
            InOrder(fs, ops) && multiset(LinesOf(ops)) == LinesIn(fs, Entered(ops))
    decreases fs.Unloaded(loaded), 0, 0
  {
    var key := fs.Key(path);
    if key !in loaded && fs.Exists(path) {
      FewerLeft(fs, loaded, loaded + {key}, key);
      LinesOnce(fs, loaded + {key}, fs.lines[key]);
      EnterLines(fs, key, LinesTrace(fs, loaded + {key}, fs.lines[key]).0);
    }
  }

  lemma {:induction false} LinesOnce(fs: Files, loaded: set<string>, items: seq<Item>)
    requires fs.Ok()
    ensures var ops := LinesTrace(fs, loaded, items).0;
            && InOrder(fs, ops) && Within(items, LinesOf(ops))
            && multiset(LinesOf(ops)) == multiset(items) + LinesIn(fs, Entered(ops))
    decreases fs.Unloaded(loaded), 3, |items|
  {
    if items != [] {
      var head := LineTrace(fs, loaded, items[0]);
      LineOnce(fs, loaded, items[0]);
      assert fs.Unloaded(head.1) <= fs.Unloaded(loaded);
      var rest := LinesTrace(fs, head.1, items[1..]);
      LinesOnce(fs, head.1, items[1..]);
      InOrderJoin(fs, head.0, rest.0);
      LinesJoined(fs, loaded, items, head, rest);
    }
  }

  lemma LinesJoined(fs: Files, loaded: set<string>, items: seq<Item>, head: Trace, rest: Trace)
    requires fs.Ok() && items != [] && LinesTrace(fs, loaded, items).0 == head.0 + rest.0
    requires LinesOf(head.0) != [] && LinesOf(head.0)[0] == items[0]
    requires multiset(LinesOf(head.0)) == multiset{items[0]} + LinesIn(fs, Entered(head.0))
    requires Within(items[1..], LinesOf(rest.0))
    requires multiset(LinesOf(rest.0)) == multiset(items[1..]) + LinesIn(fs, Entered(rest.0))
    requires LinesIn(fs, Entered(head.0 + rest.0)) == LinesIn(fs, Entered(head.0)) + LinesIn(fs, Entered(rest.0))
    ensures var ops := LinesTrace(fs, loaded, items).0;
            && Within(items, LinesOf(ops))
            && multiset(LinesOf(ops)) == multiset(items) + LinesIn(fs, Entered(ops))
  {
    hide *;
    LinesOfConcat(head.0, rest.0);
    assert items == [items[0]] + items[1..];
    WithinCons(items[0], items[1..], LinesOf(head.0)[1..], LinesOf(rest.0));
    assert LinesOf(head.0) == [items[0]] + LinesOf(head.0)[1..];
  }

  lemma {:induction false} LineOnce(fs: Files, loaded: set<string>, item: Item)
    requires fs.Ok()
    ensures var ops := LineTrace(fs, loaded, item).0;
            && InOrder(fs, ops) && LinesOf(ops) != [] && LinesOf(ops)[0] == item
            && multiset(LinesOf(ops)) == multiset{item} + LinesIn(fs, Entered(ops))
    decreases fs.Unloaded(loaded), 2, 0
  {
    OneOp(fs, Line(item));
    if item.Include? {
      var t := FilesTrace(fs, loaded, item.files, item.scope);
      FilesOnce(fs, loaded, item.files, item.scope);
      InOrderJoin(fs, [Line(item)], t.0);
      LinesOfConcat([Line(item)], t.0);
    }
  }

  lemma {:induction false} FilesOnce(fs: Files, loaded: set<string>, files: seq<string>, scope: Option<string>)
    requires fs.Ok()
    ensures var ops := FilesTrace(fs, loaded, files, scope).0;
            InOrder(fs, ops) && multiset(LinesOf(ops)) == LinesIn(fs, Entered(ops))
    decreases fs.Unloaded(loaded), 1, |files|
  {
    if files != [] {
      var one := FileTrace(fs, loaded, files[0]);
      EveryLineOnce(fs, loaded, files[0]);
      assert fs.Unloaded(one.1) <= fs.Unloaded(loaded);
      FilesOnce(fs, one.1, files[1..], scope);
      FilesStep(fs, loaded, files, scope);
      ScopedLines(fs, scope, one.0);
      InOrderJoin(fs, Scoped(scope, one.0), FilesTrace(fs, one.1, files[1..], scope).0);
      LinesOfConcat(Scoped(scope, one.0), FilesTrace(fs, one.1, files[1..], scope).0);
    }
  }

  // ---------------------------------------------------------------- one file per include

  /** No `conf-file -group` line in reach names more than one file. */
  predicate OneFileEach(items: seq<Item>) {
    forall i :: 0 <= i < |items| && items[i].Include? && items[i].scope.Some? ==> |items[i].files| <= 1
  }

  ghost predicate AllOneFileEach(fs: Files) {
    forall f :: f in fs.lines ==> OneFileEach(fs.lines[f])
  }

  /** Every frame of an included file is pushed directly behind the line that names the file. */
  ghost predicate PushesBehindIncludes(ops: seq<Op>) {
    forall i :: 0 <= i < |ops| && ops[i].Push? ==> i > 0 && ops[i - 1].Line? && ops[i - 1].item.Include?
  }

  lemma PushesJoin(a: seq<Op>, b: seq<Op>)
    requires PushesBehindIncludes(a) && PushesBehindIncludes(b)
    ensures PushesBehindIncludes(a + b)
  {
    forall i | 0 <= i < |a + b| && (a + b)[i].Push?
      ensures i > 0 && (a + b)[i - 1].Line? && (a + b)[i - 1].item.Include?
    {
      if i >= |a| {
        assert b[i - |a|].Push?;
      }
    }
  }

  lemma PushesScoped(item: Item, g: string, ops: seq<Op>)
    requires item.Include? && PushesBehindIncludes(ops)
    ensures PushesBehindIncludes([Line(item)] + ([Push(g)] + ops + [Pop]))
  {
    var all := [Line(item)] + ([Push(g)] + ops + [Pop]);
    forall i | 0 <= i < |all| && all[i].Push? ensures i > 0 && all[i - 1].Line? && all[i - 1].item.Include? {
      if i >= 2 {
        assert ops[i - 2].Push?;
      }
    }
  }

  lemma {:induction false} FilePushes(fs: Files, loaded: set<string>, path: string)
    requires fs.Ok() && AllOneFileEach(fs)
    ensures PushesBehindIncludes(FileTrace(fs, loaded, path).0)
    decreases fs.Unloaded(loaded), 0, 0
  {
    var key := fs.Key(path);
    if key !in loaded && fs.Exists(path) {
      FewerLeft(fs, loaded, loaded + {key}, key);
      LinesPushes(fs, loaded + {key}, fs.lines[key]);
      PushesJoin([Enter(key)], LinesTrace(fs, loaded + {key}, fs.lines[key]).0);
    }
  }

  lemma {:induction false} LinesPushes(fs: Files, loaded: set<string>, items: seq<Item>)
    requires fs.Ok() && AllOneFileEach(fs) && OneFileEach(items)
    ensures PushesBehindIncludes(LinesTrace(fs, loaded, items).0)
    decreases fs.Unloaded(loaded), 3, |items|
  {
    if items != [] {
      var head := LineTrace(fs, loaded, items[0]);
      LinePushes(fs, loaded, items[0]);
      assert fs.Unloaded(head.1) <= fs.Unloaded(loaded);
      LinesPushes(fs, head.1, items[1..]);
      PushesJoin(head.0, LinesTrace(fs, head.1, items[1..]).0);
    }
  }

  lemma {:induction false} LinePushes(fs: Files, loaded: set<string>, item: Item)
    requires fs.Ok() && AllOneFileEach(fs) && OneFileEach([item])
    ensures PushesBehindIncludes(LineTrace(fs, loaded, item).0)
    decreases fs.Unloaded(loaded), 2, 0
  {
    if item.Include? {
      assert [item][0] == item;
      if item.scope.Some? && item.files != [] {
        var one := FileTrace(fs, loaded, item.files[0]);
        FilePushes(fs, loaded, item.files[0]);
        assert item.files[1..] == [];
        assert FilesTrace(fs, loaded, item.files, item.scope).0 == Scoped(item.scope, one.0) + [];
        PushesScoped(item, item.scope.value, one.0);
      } else if item.scope.None? {
        FilesPushes(fs, loaded, item.files);
        PushesJoin([Line(item)], FilesTrace(fs, loaded, item.files, item.scope).0);
      }
    }
  }

  lemma {:induction false} FilesPushes(fs: Files, loaded: set<string>, files: seq<string>)
    requires fs.Ok() && AllOneFileEach(fs)
    ensures PushesBehindIncludes(FilesTrace(fs, loaded, files, None).0)
    decreases fs.Unloaded(loaded), 1, |files|
  {
    if files != [] {
      var one := FileTrace(fs, loaded, files[0]);
      FilePushes(fs, loaded, files[0]);
      assert fs.Unloaded(one.1) <= fs.Unloaded(loaded);
      FilesPushes(fs, one.1, files[1..]);
      PushesJoin(one.0, FilesTrace(fs, one.1, files[1..], None).0);
    }
  }

  /** Loading any main file whose include graph names one file per `conf-file -group`: stack
      depth tells the scope at every point, whatever stray ends and open blocks the files
      hold, and so the global settings depend on the lines outside every block alone. */
  lemma LoadedScopesSound(fs: Files, path: string, n: nat)
    requires fs.Ok() && AllOneFileEach(fs) && n <= |FileTrace(fs, {}, path).0|
    ensures DepthTellsScope(FileTrace(fs, {}, path).0[..n])
    ensures Run(FileTrace(fs, {}, path).0).globals == Applied(TopLevelSettings(FileTrace(fs, {}, path).0))
  {
    var ops := FileTrace(fs, {}, path).0;
    FilePushes(fs, {}, path);
    forall i ensures !BarePush(ops, i) {
      if 0 <= i < |ops| && ops[i].Push? {
        assert ops[..i][|ops[..i]| - 1] == ops[i - 1];
      }
    }
    DepthTellsScopeExactly(ops);
    GlobalsFromTopLevelOnly(ops);
  }

  // ---------------------------------------------------------------- a setting that escapes

  /** A main file that names two files in one `conf-file -group`; the first has one end too
      many, the second sets a lifetime. */
  function EscapeFiles(): Files {
    Files(map["main" := "main", "a" := "a", "b" := "b"],
          map["main" := [Include(["a"] + ["b"], Some("g"))], "a" := [End], "b" := [Param("rr-ttl", Some(5))]])
  }

  lemma OneLineFile(fs: Files, loaded: set<string>, path: string, item: Item)
    requires fs.Ok() && path in fs.canonical && fs.canonical[path] == path && path !in loaded
    requires fs.lines[path] == [item] && !item.Include?
    ensures FileTrace(fs, loaded, path) == ([Enter(path)] + [Line(item)], loaded + {path})
  {
    var l := loaded + {path};
    assert [item][1..] == [] && LinesTrace(fs, l, []) == ([], l);
    assert [Line(item)] + [] == [Line(item)];
    assert LinesTrace(fs, l, [item]) == ([Line(item)], l);
  }

  lemma TwoFiles(fs: Files, loaded: set<string>, x: string, y: string, g: string)
    requires fs.Ok()
    ensures var one := FileTrace(fs, loaded, x);
            var two := FileTrace(fs, one.1, y);
            FilesTrace(fs, loaded, [x] + [y], Some(g)) == (Scoped(Some(g), one.0) + Scoped(Some(g), two.0), two.1)
  {
    var one := FileTrace(fs, loaded, x);
    var two := FileTrace(fs, one.1, y);
    assert ([x] + [y])[1..] == [y] && [y][1..] == [];
    FilesStep(fs, loaded, [x] + [y], Some(g));
    FilesStep(fs, one.1, [y], Some(g));
    assert Scoped(Some(g), two.0) + [] == Scoped(Some(g), two.0);
  }

  lemma EscapeTrace()
    ensures EscapeFiles().Ok()
    ensures FileTrace(EscapeFiles(), {}, "main").0 ==
            [Enter("main")]
            + ([Line(Include(["a"] + ["b"], Some("g")))]
               + (([Push("g")] + ([Enter("a")] + [Line(End)]) + [Pop])
                  + ([Push("g")] + ([Enter("b")] + [Line(Param("rr-ttl", Some(5)))]) + [Pop])))
  {
    var fs := EscapeFiles();
    var item := Include(["a"] + ["b"], Some("g"));
    OneLineFile(fs, {"main"}, "a", End);
    OneLineFile(fs, {"main"} + {"a"}, "b", Param("rr-ttl", Some(5)));
    TwoFiles(fs, {"main"}, "a", "b", "g");
    assert {} + {"main"} == {"main"};
    var line := LineTrace(fs, {"main"}, item);
    assert [item][1..] == [] && LinesTrace(fs, line.1, []) == ([], line.1);
    assert LinesTrace(fs, {"main"}, [item]).0 == line.0 + [];
  }

  /** Loading those files: the setting stands inside the block of the group by the independent
      reading, and goes to the global configuration. */
  lemma SettingEscapesItsGroup()
    ensures EscapeFiles().Ok()
    ensures var ops := FileTrace(EscapeFiles(), {}, "main").0;
            && Run(ops).globals == map["rr-ttl" := 5]
            && |ops| == 10 && ops[8] == Line(Param("rr-ttl", Some(5))) && OpenBlocks(ops[..8]) == ["g"]
  {
    EscapeTrace();
    InARow(Enter("main"), Line(Include(["a"] + ["b"], Some("g"))), Push("g"), Enter("a"), Line(End), Pop,
           Push("g"), Enter("b"), Line(Param("rr-ttl", Some(5))), Pop);
    var first := [Enter("main")] + [Line(Include(["a"] + ["b"], Some("g")))] + [Push("g")] + [Enter("a")];
    EscapeRun(first, first + [Line(End)] + [Pop] + [Push("g")] + [Enter("b")]);
  }

  lemma InARow(a: Op, b: Op, c: Op, d: Op, e: Op, f: Op, g: Op, h: Op, i: Op, j: Op)
    ensures [a] + ([b] + (([c] + ([d] + [e]) + [f]) + ([g] + ([h] + [i]) + [j]))) ==
            [a] + [b] + [c] + [d] + [e] + [f] + [g] + [h] + [i] + [j]
    ensures var ops := [a] + [b] + [c] + [d] + [e] + [f] + [g] + [h] + [i] + [j];
            |ops| == 10 && ops[8] == i && ops[..8] == [a] + [b] + [c] + [d] + [e] + [f] + [g] + [h]
  {
    var p, q := [c] + ([d] + [e]) + [f], [g] + ([h] + [i]) + [j];
    Flatten([a], [b], p, q);
    FlattenFour([a] + [b], c, d, e, f);
    FlattenFour([a] + [b] + [c] + [d] + [e] + [f], g, h, i, j);
    var inside := [a] + [b] + [c] + [d] + [e] + [f] + [g] + [h];
    assert |inside| == 8;
    assert (inside + [i] + [j])[..8] == inside;
  }

  lemma Flatten(x: seq<Op>, y: seq<Op>, p: seq<Op>, q: seq<Op>)
    ensures x + (y + (p + q)) == x + y + p + q
  {
  }

  lemma FlattenFour(x: seq<Op>, c: Op, d: Op, e: Op, f: Op)
    ensures x + ([c] + ([d] + [e]) + [f]) == x + [c] + [d] + [e] + [f]
  {
  }

  lemma EscapeRun(first: seq<Op>, inside: seq<Op>)
    requires first == [Enter("main")] + [Line(Include(["a"] + ["b"], Some("g")))] + [Push("g")] + [Enter("a")]
    requires inside == first + [Line(End)] + [Pop] + [Push("g")] + [Enter("b")]
    ensures OpenBlocks(inside) == ["g"]
    ensures Run(inside + [Line(Param("rr-ttl", Some(5)))] + [Pop]).globals == map["rr-ttl" := 5]
  {
    hide *;
    var closed := first + [Line(End)] + [Pop];
    OpenedByFile(first);
    ClosedTwice(first);
    ReopenedBare(closed, inside);
    SettingAtBottom(inside);
    PopKeepsGlobals(inside + [Line(Param("rr-ttl", Some(5)))]);
  }

  lemma OpenedByFile(ops: seq<Op>)
    requires ops == [Enter("main")] + [Line(Include(["a"] + ["b"], Some("g")))] + [Push("g")] + [Enter("a")]
    ensures Run(ops).globals == map[] && |Run(ops).stack| == 2 && OpenBlocks(ops) == ["g"]
  {
    var a, b := Enter("main"), Line(Include(["a"] + ["b"], Some("g")));
    assert [a] == [] + [a];
    RunSnoc([], a);
    assert Run([a]) == Start();
    RunSnoc([a], b);
    assert |Run([a] + [b]).stack| == 1 && Run([a] + [b]).globals == map[];
    RunSnoc([a] + [b], Push("g"));
    RunSnoc([a] + [b] + [Push("g")], Enter("a"));
  }

  lemma EndOrPop(s: State, op: Op)
    requires (op.Pop? || op == Line(End)) && s.stack != []
    ensures Next(s, op).stack == s.stack[..|s.stack| - 1] && Next(s, op).globals == s.globals
  {
  }

  lemma ClosedTwice(ops: seq<Op>)
    requires |Run(ops).stack| == 2 && OpenBlocks(ops) == ["g"] && Run(ops).globals == map[]
    ensures Run(ops + [Line(End)] + [Pop]).stack == [] && OpenBlocks(ops + [Line(End)] + [Pop]) == []
    ensures Run(ops + [Line(End)] + [Pop]).globals == map[]
  {
    RunSnoc(ops, Line(End));
    EndOrPop(Run(ops), Line(End));
    RunSnoc(ops + [Line(End)], Pop);
    EndOrPop(Run(ops + [Line(End)]), Pop);
  }

  lemma ReopenedBare(before: seq<Op>, ops: seq<Op>)
    requires Run(before).stack == [] && OpenBlocks(before) == [] && Run(before).globals == map[]
    requires ops == before + [Push("g")] + [Enter("b")]
    ensures Run(ops).stack == [Frame("g", EmptyGroup())] && OpenBlocks(ops) == ["g"] && Run(ops).globals == map[]
  {
    RunSnoc(before, Push("g"));
    RunSnoc(before + [Push("g")], Enter("b"));
  }

  lemma SettingAtBottom(ops: seq<Op>)
    requires |Run(ops).stack| == 1 && Run(ops).globals == map[]
    ensures Run(ops + [Line(Param("rr-ttl", Some(5)))]).globals == map["rr-ttl" := 5]
  {
    RunSnoc(ops, Line(Param("rr-ttl", Some(5))));
  }

  lemma PopKeepsGlobals(ops: seq<Op>)
    ensures Run(ops + [Pop]).globals == Run(ops).globals
  {
    RunSnoc(ops, Pop);
  }
}
