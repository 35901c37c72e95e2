/** The configuration interpreter's rule groups (src/dns_conf.rs, src/config/rule_group.rs):
    a stack of open `group-begin` blocks over a lazily created `default` frame, scoped routing
    of settings, inheritance, and the merging of closed blocks into named groups.

    A configuration is the sequence of operations the interpreter performs: one for each
    line, and for each included file its entry and, with `-group`, a frame pushed around it. */
module ConfigGroups {
  import opened Dns

  const DEFAULT_GROUP := "default"

  /** A rule line of any of the six kinds (address, cname, srv, https, domain, forward). */
  datatype Rule = Rule(kind: nat, text: string)

  datatype RuleGroup = RuleGroup(rules: seq<Rule>, params: map<string, nat>)

  datatype Frame = Frame(name: string, body: RuleGroup)

  /** What a line was parsed to.  `value` is absent when a setting is reset. */
  datatype Item =
    | Param(name: string, value: Option<nat>)        // has a group form and a global form
    | GlobalOnly(name: string, value: Option<nat>)   // has no group form
    | Unscoped(text: string)                         // servers, proxies, sets: global wherever written
    | RuleLine(rule: Rule)
    | Begin(group: string, inherit: Option<string>)
    | End
    | Client(client: string, target: string)
    | Include(files: seq<string>, scope: Option<string>)
    | Blank

  datatype Op = Line(item: Item) | Enter(file: string) | Push(group: string) | Pop

  datatype State = State(
    stack: seq<Frame>,
    groups: map<string, RuleGroup>,
    globals: map<string, nat>,
    unscoped: seq<string>,
    clients: seq<(string, string)>)

  function EmptyGroup(): RuleGroup {
    RuleGroup([], map[])
  }

  /** Rules accumulate; a scalar is filled in only where there is none yet. */
  function Merge(a: RuleGroup, b: RuleGroup): RuleGroup {
    RuleGroup(a.rules + b.rules, b.params + a.params)
  }

  function Entry(groups: map<string, RuleGroup>, g: string): RuleGroup {
    if g in groups then groups[g] else EmptyGroup()
  }

  function MergeFrame(groups: map<string, RuleGroup>, f: Frame): map<string, RuleGroup> {
    groups[f.name := Merge(Entry(groups, f.name), f.body)]
  }

  /** Put a setting in place or take it away. */
  function Assign(m: map<string, nat>, name: string, value: Option<nat>): map<string, nat> {
    if value.Some? then m[name := value.value] else m - {name}
  }

  predicate InGroup(s: State) {
    |s.stack| > 1
  }

  predicate AllowedInGroup(item: Item) {
    !item.GlobalOnly?
  }

  /** The default frame appears with the first line that needs a frame. */
  function Touched(s: State): State {
    if s.stack == [] then s.(stack := [Frame(DEFAULT_GROUP, EmptyGroup())]) else s
  }

  function Top(s: State): Frame
    requires s.stack != []
  {
    s.stack[|s.stack| - 1]
  }

  function WithTop(s: State, body: RuleGroup): State
    requires s.stack != []
  {
    s.(stack := s.stack[|s.stack| - 1 := Top(s).(body := body)])
  }

  function FirstNamed(stack: seq<Frame>, name: string): Option<RuleGroup> {
    if stack == [] then None
    else if stack[0].name == name then Some(stack[0].body)
    else FirstNamed(stack[1..], name)
  }

  /** What a new block starts from. */
  function Inherited(s: State, inherit: Option<string>): Option<RuleGroup> {
    var source := if inherit.Some? then inherit else if InGroup(s) then Some("parent") else None;
    if source.None? || source.value == "none" then None
    else if source.value == "parent" then (if s.stack == [] then None else Some(Top(s).body))
    else if source.value == DEFAULT_GROUP then
      if DEFAULT_GROUP in s.groups then Some(s.groups[DEFAULT_GROUP]) else FirstNamed(s.stack, DEFAULT_GROUP)
    else if source.value in s.groups then Some(s.groups[source.value]) else None
  }

  function Opened(s: State, group: string, inherit: Option<string>): State {
    var from := Inherited(s, inherit);
    s.(stack := s.stack + [Frame(group, if from.Some? then Merge(EmptyGroup(), from.value) else EmptyGroup())])
  }

  /** Close the innermost frame, if there is one. */
  function Popped(s: State): State {
    if s.stack == [] then s
    else s.(stack := s.stack[..|s.stack| - 1], groups := MergeFrame(s.groups, Top(s)))
  }

  function Interpret(s: State, item: Item, inGroup: bool): State
    requires s.stack != []
  {
    match item
    case Param(name, value) =>
      if inGroup then WithTop(s, Top(s).body.(params := Assign(Top(s).body.params, name, value)))
      else s.(globals := Assign(s.globals, name, value))
    case GlobalOnly(name, value) => s.(globals := Assign(s.globals, name, value))
    case Unscoped(text) => s.(unscoped := s.unscoped + [text])
    case RuleLine(rule) => WithTop(s, Top(s).body.(rules := Top(s).body.rules + [rule]))
    case Begin(group, inherit) => Opened(s, group, inherit)
    case End => Popped(s)
    case Client(client, target) => s.(clients := s.clients + [(client, if target == "" then Top(s).name else target)])
    case Include(_, _) => s
    case Blank => s
  }

  function NextLine(s: State, item: Item): State {
    if InGroup(s) && !AllowedInGroup(item) then s else Interpret(Touched(s), item, InGroup(s))
  }

  function Next(s: State, op: Op): State {
    match op
    case Line(item) => NextLine(s, item)
    case Enter(_) => s
    case Push(group) => s.(stack := s.stack + [Frame(group, EmptyGroup())])
    case Pop => Popped(s)
  }

  function Start(): State {
    State([], map[], map[], [], [])
  }

  function RunFrom(s: State, ops: seq<Op>): State {
    if ops == [] then s else Next(RunFrom(s, ops[..|ops| - 1]), ops[|ops| - 1])
  }

  function Run(ops: seq<Op>): State {
    RunFrom(Start(), ops)
  }

  function MergeAll(groups: map<string, RuleGroup>, frames: seq<Frame>): map<string, RuleGroup> {
    if frames == [] then groups else MergeFrame(MergeAll(groups, frames[..|frames| - 1]), frames[|frames| - 1])
  }

  /** The groups of the finished configuration: blocks left open are merged bottom to top. */
  function Built(s: State): map<string, RuleGroup> {
    MergeAll(s.groups, s.stack)
  }

  lemma {:induction false} RunFromConcat(s: State, a: seq<Op>, b: seq<Op>)
    ensures RunFrom(s, a + b) == RunFrom(RunFrom(s, a), b)
  {
    if b == [] {
      assert a + b == a;
    } else {
      assert (a + b)[..|a + b| - 1] == a + b[..|b| - 1];
      RunFromConcat(s, a, b[..|b| - 1]);
    }
  }

  // ---------------------------------------------------------------- the independent reading

  predicate Opens(op: Op) {
    op.Push? || (op.Line? && op.item.Begin?)
  }

  predicate Closes(op: Op) {
    op.Pop? || (op.Line? && op.item.End?)
  }

  function OpenedName(op: Op): string
    requires Opens(op)
  {
    if op.Push? then op.group else op.item.group
  }

  function NextOpen(open: seq<string>, op: Op): seq<string> {
    if Opens(op) then open + [OpenedName(op)]
    else if Closes(op) then (if open == [] then [] else open[..|open| - 1])
    else open
  }

  /** The names of the explicitly opened blocks, innermost last; a stray end changes nothing. */
  function OpenBlocks(ops: seq<Op>): seq<string> {
    if ops == [] then [] else NextOpen(OpenBlocks(ops[..|ops| - 1]), ops[|ops| - 1])
  }

  /** The group that a line belongs to. */
  function Innermost(open: seq<string>): string {
    if open == [] then DEFAULT_GROUP else open[|open| - 1]
  }

  function Names(stack: seq<Frame>): (names: seq<string>)
    ensures |names| == |stack| && forall i :: 0 <= i < |stack| ==> names[i] == stack[i].name
  {
    seq(|stack|, i requires 0 <= i < |stack| => stack[i].name)
  }

  /** The stack is the open blocks, usually over the default frame. */
  ghost predicate Mirrors(s: State, open: seq<string>) {
    Names(s.stack) == [DEFAULT_GROUP] + open || Names(s.stack) == open
  }

  lemma NamesOfNext(s: State, op: Op)
    ensures var t := if op.Line? then Touched(s) else s;
            Names(Next(s, op).stack) ==
            if Opens(op) then Names(t.stack) + [OpenedName(op)]
            else if Closes(op) then (if t.stack == [] then [] else Names(t.stack)[..|t.stack| - 1])
            else Names(t.stack)
  {
  }

  lemma NextMirrors(s: State, open: seq<string>, op: Op)
    requires Mirrors(s, open)
    ensures Mirrors(Next(s, op), NextOpen(open, op))
  {
    NamesOfNext(s, op);
    var t := if op.Line? then Touched(s) else s;
    if Names(t.stack) == [DEFAULT_GROUP] + open {
      if Opens(op) {
        assert Names(Next(s, op).stack) == [DEFAULT_GROUP] + NextOpen(open, op);
      } else if Closes(op) && open != [] {
        assert Names(Next(s, op).stack) == [DEFAULT_GROUP] + NextOpen(open, op);
      }
    }
  }

  lemma {:induction false} RunMirrors(ops: seq<Op>)
    ensures Mirrors(Run(ops), OpenBlocks(ops))
  {
    if ops != [] {
      RunMirrors(ops[..|ops| - 1]);
      NextMirrors(Run(ops[..|ops| - 1]), OpenBlocks(ops[..|ops| - 1]), ops[|ops| - 1]);
    }
  }

  // ---------------------------------------------------------------- when depth tells the scope

  /** No frame at all: nothing was read yet, or the last thing that happened closed the
      default frame. */
  predicate Bare(ops: seq<Op>) {
    ops == [] ||
    var init, op := ops[..|ops| - 1], ops[|ops| - 1];
    match op
    case Line(item) => item.End? && OpenBlocks(init) == []
    case Enter(_) => Bare(init)
    case Push(_) => false
    case Pop => OpenBlocks(init) == []
  }

  /** A group frame for an included file is opened while there is no frame below it. */
  predicate BarePush(ops: seq<Op>, i: int) {
    0 <= i < |ops| && ops[i].Push? && Bare(ops[..i])
  }

  ghost predicate NeverBarePush(ops: seq<Op>) {
    forall i :: !BarePush(ops, i)
  }

  lemma {:induction false} BareExactly(ops: seq<Op>)
    requires NeverBarePush(ops)
    ensures Run(ops).stack == [] <==> Bare(ops)
    ensures Run(ops).stack != [] ==> Names(Run(ops).stack) == [DEFAULT_GROUP] + OpenBlocks(ops)
  {
    if ops != [] {
      var init, op := ops[..|ops| - 1], ops[|ops| - 1];
      PrefixNeverBare(ops);
      BareExactly(init);
      RunMirrors(init);
      assert !BarePush(ops, |ops| - 1);
      BareStep(Run(init), OpenBlocks(init), op);
    } else {
      assert Run(ops).stack == [];
    }
  }

  lemma PrefixNeverBare(ops: seq<Op>)
    requires ops != [] && NeverBarePush(ops)
    ensures NeverBarePush(ops[..|ops| - 1])
  {
    var init := ops[..|ops| - 1];
    forall i ensures !BarePush(init, i) {
      if 0 <= i < |init| {
        assert init[..i] == ops[..i];
        assert !BarePush(ops, i);
      }
    }
  }

  lemma BareStep(s: State, open: seq<string>, op: Op)
    requires if s.stack == [] then open == [] && !op.Push? else Names(s.stack) == [DEFAULT_GROUP] + open
    ensures var s' := Next(s, op);
            && (s'.stack == [] <==> (Closes(op) && open == []) || (op.Enter? && s.stack == []))
            && (s'.stack != [] ==> Names(s'.stack) == [DEFAULT_GROUP] + NextOpen(open, op))
  {
    NamesOfNext(s, op);
    var t := if op.Line? then Touched(s) else s;
    if t.stack != [] {
      assert Names(t.stack) == [DEFAULT_GROUP] + open;
    }
  }

  ghost predicate DepthTellsScope(ops: seq<Op>) {
    InGroup(Run(ops)) <==> OpenBlocks(ops) != []
  }

  /** "Stack depth above one means inside an explicit block" holds throughout a configuration
      exactly when no group frame is ever pushed onto an empty stack; that takes a stray end
      in one file of a `conf-file -group` that names several (`SettingEscapesItsGroup` of
      `ConfigLoad` is such a set of files). */
  lemma DepthTellsScopeExactly(ops: seq<Op>)
    ensures (forall n: nat :: n <= |ops| ==> DepthTellsScope(ops[..n])) <==> NeverBarePush(ops)
  {
    hide *;
    if NeverBarePush(ops) {
      forall n: nat | n <= |ops| ensures DepthTellsScope(ops[..n]) {
        PrefixTells(ops, n);
      }
    } else {
      var n := BarePushMisleads(ops);
    }
  }

  lemma PrefixTells(ops: seq<Op>, n: nat)
    requires n <= |ops| && NeverBarePush(ops)
    ensures DepthTellsScope(ops[..n])
  {
    hide Run, OpenBlocks, NeverBarePush, BarePush;
    TakeNeverBare(ops, n);
    BareExactly(ops[..n]);
    RunMirrors(ops[..n]);
  }

  lemma BarePushMisleads(ops: seq<Op>) returns (n: nat)
    requires !NeverBarePush(ops)
    ensures n <= |ops| && !DepthTellsScope(ops[..n])
  {
    var i := FirstBarePush(ops);
    n := i + 1;
    var before := ops[..i];
    assert ops[..i + 1] == before + [ops[i]];
    assert (before + [ops[i]])[..i] == before;
    TakeNoBare(ops, i);
    BareExactly(before);
    RunMirrors(before);
  }

  lemma TakeNeverBare(ops: seq<Op>, n: nat)
    requires n <= |ops| && NeverBarePush(ops)
    ensures NeverBarePush(ops[..n])
  {
    forall i ensures !BarePush(ops[..n], i) {
      if 0 <= i < n {
        assert ops[..n][..i] == ops[..i];
        assert !BarePush(ops, i);
      }
    }
  }

  lemma TakeNoBare(ops: seq<Op>, n: nat)
    requires n <= |ops| && forall i :: 0 <= i < n ==> !BarePush(ops, i)
    ensures NeverBarePush(ops[..n])
  {
    forall i ensures !BarePush(ops[..n], i) {
      if 0 <= i < n {
        assert ops[..n][..i] == ops[..i];
        assert !BarePush(ops, i);
      }
    }
  }

  lemma {:induction false} FirstBarePush(ops: seq<Op>) returns (i: nat)
    requires !NeverBarePush(ops)
    ensures BarePush(ops, i) && forall j :: 0 <= j < i ==> !BarePush(ops, j)
  {
    var k :| BarePush(ops, k);
    i := 0;
    while !BarePush(ops, i)
      invariant i <= k && forall j :: 0 <= j < i ==> !BarePush(ops, j)
      decreases k - i
    {
      i := i + 1;
    }
  }

  lemma RunSnoc(ops: seq<Op>, op: Op)
    ensures Run(ops + [op]) == Next(Run(ops), op)
    ensures OpenBlocks(ops + [op]) == NextOpen(OpenBlocks(ops), op)
  {
    assert (ops + [op])[..|ops|] == ops;
  }

  // ---------------------------------------------------------------- where settings go

  predicate IsSetting(op: Op) {
    op.Line? && (op.item.Param? || op.item.GlobalOnly?)
  }

  /** The settings written outside every explicit block, in order. */
  function TopLevelSettings(ops: seq<Op>): seq<(string, Option<nat>)> {
    if ops == [] then []
    else
      var init, op := ops[..|ops| - 1], ops[|ops| - 1];
      TopLevelSettings(init) +
      (if IsSetting(op) && OpenBlocks(init) == [] then [(op.item.name, op.item.value)] else [])
  }

  function Applied(settings: seq<(string, Option<nat>)>): map<string, nat> {
    if settings == [] then map[]
    else Assign(Applied(settings[..|settings| - 1]), settings[|settings| - 1].0, settings[|settings| - 1].1)
  }

  lemma AppliedSnoc(settings: seq<(string, Option<nat>)>, x: (string, Option<nat>))
    ensures Applied(settings + [x]) == Assign(Applied(settings), x.0, x.1)
  {
    assert (settings + [x])[..|settings|] == settings;
  }

  /** The global settings are decided by the lines outside every block and by nothing else. */
  lemma {:induction false} GlobalsFromTopLevelOnly(ops: seq<Op>)
    requires NeverBarePush(ops)
    ensures Run(ops).globals == Applied(TopLevelSettings(ops))
  {
    if ops != [] {
      var init, op := ops[..|ops| - 1], ops[|ops| - 1];
      PrefixNeverBare(ops);
      GlobalsFromTopLevelOnly(init);
      DepthTellsScopeExactly(init);
      assert init[..|init|] == init && DepthTellsScope(init);
      GlobalsStep(Run(init), op);
      if IsSetting(op) && OpenBlocks(init) == [] {
        AppliedSnoc(TopLevelSettings(init), (op.item.name, op.item.value));
      } else {
        assert TopLevelSettings(ops) == TopLevelSettings(init);
      }
    }
  }

  lemma GlobalsStep(s: State, op: Op)
    ensures Next(s, op).globals ==
            if IsSetting(op) && !InGroup(s) then Assign(s.globals, op.item.name, op.item.value) else s.globals
  {
  }

  /** A setting written inside a block lands in that block's frame, whatever came before. */
  lemma SettingInBlock(ops: seq<Op>, name: string, value: Option<nat>)
    requires NeverBarePush(ops) && OpenBlocks(ops) != []
    ensures var s := Run(ops + [Line(Param(name, value))]);
            && s.stack != [] && Run(ops).stack != []
            && Top(s).name == Innermost(OpenBlocks(ops))
            && Top(s).body.params == (if value.Some? then Top(Run(ops)).body.params[name := value.value]
                                      else Top(Run(ops)).body.params - {name})
            && s.globals == Run(ops).globals
  {
    RunSnoc(ops, Line(Param(name, value)));
    DepthTellsScopeExactly(ops);
    assert ops[..|ops|] == ops && DepthTellsScope(ops[..|ops|]);
    RunMirrors(ops);
    TopIsInnermost(Run(ops), OpenBlocks(ops));
  }

  lemma TopIsInnermost(s: State, open: seq<string>)
    requires Mirrors(s, open)
    ensures Top(Touched(s)).name == Innermost(open)
  {
    var names := Names(s.stack);
    if s.stack != [] {
      assert names[|names| - 1] == Top(s).name;
    }
  }

  /** A rule written anywhere goes behind the rules of the innermost block so far. */
  lemma RuleInBlock(ops: seq<Op>, rule: Rule)
    requires NeverBarePush(ops)
    ensures var s, s' := Run(ops), Run(ops + [Line(RuleLine(rule))]);
            && s'.stack != [] && |s'.stack| == |OpenBlocks(ops)| + 1
            && Top(s').name == Innermost(OpenBlocks(ops))
            && Top(s').body.rules == (if s.stack == [] then [] else Top(s).body.rules) + [rule]
            && s'.groups == s.groups && s'.globals == s.globals
  {
    RunSnoc(ops, Line(RuleLine(rule)));
    BareExactly(ops);
    if Run(ops).stack == [] {
      BareMeansTopLevel(ops);
    }
    TouchedTop(Run(ops), OpenBlocks(ops));
  }

  lemma BareMeansTopLevel(ops: seq<Op>)
    requires NeverBarePush(ops) && Run(ops).stack == []
    ensures OpenBlocks(ops) == []
  {
    RunMirrors(ops);
  }

  /** With the default frame in place, the frames are the default one and the open blocks. */
  lemma TouchedTop(s: State, open: seq<string>)
    requires if s.stack == [] then open == [] else Names(s.stack) == [DEFAULT_GROUP] + open
    ensures Names(Touched(s).stack) == [DEFAULT_GROUP] + open
    ensures |Touched(s).stack| == |open| + 1 && Touched(s).stack[0].name == DEFAULT_GROUP
    ensures Top(Touched(s)).name == Innermost(open)
  {
    assert |Names(Touched(s).stack)| == |Touched(s).stack|;
    TopIsInnermost(s, open);
  }

  /** Closing a block appends its rules to the group of its name and fills in the scalars the
      group lacks, so a scalar that only a later block of a name sets reaches the group. */
  lemma BlockClosed(ops: seq<Op>)
    requires NeverBarePush(ops) && OpenBlocks(ops) != []
    ensures var s, s' := Run(ops), Run(ops + [Line(End)]);
            var g := Innermost(OpenBlocks(ops));
            && s.stack != [] && g in s'.groups
            && s'.groups[g].rules == Entry(s.groups, g).rules + Top(s).body.rules
            && (forall p :: p in s'.groups[g].params <==> p in Entry(s.groups, g).params || p in Top(s).body.params)
            && (forall p :: p in Entry(s.groups, g).params ==> s'.groups[g].params[p] == Entry(s.groups, g).params[p])
            && (forall p :: p in Top(s).body.params && p !in Entry(s.groups, g).params ==>
                  s'.groups[g].params[p] == Top(s).body.params[p])
            && (forall h :: h != g ==> Entry(s'.groups, h) == Entry(s.groups, h))
            && s'.stack == s.stack[..|s.stack| - 1]
  {
    RunSnoc(ops, Line(End));
    BareExactly(ops);
    RunMirrors(ops);
    TopIsInnermost(Run(ops), OpenBlocks(ops));
  }

  /** The server, proxy and set lines of a configuration, in order. */
  function UnscopedLines(ops: seq<Op>): seq<string> {
    if ops == [] then []
    else
      var op := ops[|ops| - 1];
      UnscopedLines(ops[..|ops| - 1]) + (if op.Line? && op.item.Unscoped? then [op.item.text] else [])
  }

  /** Such a line is kept wherever it stands, inside a block or not. */
  lemma {:induction false} UnscopedKept(ops: seq<Op>)
    ensures Run(ops).unscoped == UnscopedLines(ops)
  {
    if ops != [] {
      var init, op := ops[..|ops| - 1], ops[|ops| - 1];
      UnscopedKept(init);
      UnscopedStep(Run(init), op);
    }
  }

  lemma UnscopedStep(s: State, op: Op)
    ensures Next(s, op).unscoped == s.unscoped + (if op.Line? && op.item.Unscoped? then [op.item.text] else [])
  {
  }

  // ---------------------------------------------------------------- what a new block starts with

  /** What a block opened after these lines starts with, read from the lines: the block it
      stands in, for `parent` and for a nested block that does not say; the group of the given
      name as closed so far, or for `default` the lines outside every block. */
  function StartsWith(ops: seq<Op>, inherit: Option<string>): RuleGroup {
    var s := Touched(Run(ops));
    if inherit == Some("none") || (inherit.None? && OpenBlocks(ops) == []) then EmptyGroup()
    else if inherit.None? || inherit == Some("parent") then s.stack[|s.stack| - 1].body
    else if inherit.value in s.groups then s.groups[inherit.value]
    else if inherit.value == DEFAULT_GROUP then s.stack[0].body
    else EmptyGroup()
  }

  /** A new block gets its own frame on top of the others, with exactly that in it. */
  lemma BlockStartsWith(ops: seq<Op>, group: string, inherit: Option<string>)
    requires NeverBarePush(ops)
    ensures var s := Touched(Run(ops));
            Run(ops + [Line(Begin(group, inherit))]) == s.(stack := s.stack + [Frame(group, StartsWith(ops, inherit))])
  {
    RunSnoc(ops, Line(Begin(group, inherit)));
    BareExactly(ops);
    if Run(ops).stack == [] {
      BareMeansTopLevel(ops);
    }
    TouchedTop(Run(ops), OpenBlocks(ops));
    StartIs(Run(ops), OpenBlocks(ops), group, inherit, StartsWith(ops, inherit));
  }

  lemma StartIs(s: State, open: seq<string>, group: string, inherit: Option<string>, body: RuleGroup)
    requires var t := Touched(s); |t.stack| == |open| + 1 && t.stack[0].name == DEFAULT_GROUP
    requires var t := Touched(s);
             body == if inherit == Some("none") || (inherit.None? && open == []) then EmptyGroup()
                     else if inherit.None? || inherit == Some("parent") then t.stack[|t.stack| - 1].body
                     else if inherit.value in t.groups then t.groups[inherit.value]
                     else if inherit.value == DEFAULT_GROUP then t.stack[0].body
                     else EmptyGroup()
    ensures NextLine(s, Begin(group, inherit)) == Touched(s).(stack := Touched(s).stack + [Frame(group, body)])
  {
    var t := Touched(s);
    var from := Inherited(t, inherit);
    assert from.Some? ==> Merge(EmptyGroup(), from.value) == from.value;
    assert FirstNamed(t.stack, DEFAULT_GROUP) == Some(t.stack[0].body);
    assert NextLine(s, Begin(group, inherit)) == Opened(t, group, inherit);
  }

  // ---------------------------------------------------------------- where rules go

  /** The rules written in blocks of a name, by the independent reading. */
  function Landed(ops: seq<Op>, g: string): multiset<Rule> {
    if ops == [] then multiset{}
    else
      var init, op := ops[..|ops| - 1], ops[|ops| - 1];
      Landed(init, g) +
      (if op.Line? && op.item.RuleLine? && Innermost(OpenBlocks(init)) == g then multiset{op.item.rule} else multiset{})
  }

  /** What a frame contributes to a group. */
  function Share(f: Frame, g: string): multiset<Rule> {
    if f.name == g then multiset(f.body.rules) else multiset{}
  }

  /** The rules held for a group: already merged, or in open frames of that name. */
  function HeldIn(groups: map<string, RuleGroup>, stack: seq<Frame>, g: string): multiset<Rule> {
    if stack == [] then multiset(Entry(groups, g).rules)
    else HeldIn(groups, stack[..|stack| - 1], g) + Share(stack[|stack| - 1], g)
  }

  function Held(s: State, g: string): multiset<Rule> {
    HeldIn(s.groups, s.stack, g)
  }

  lemma HeldSnoc(groups: map<string, RuleGroup>, stack: seq<Frame>, f: Frame, g: string)
    ensures HeldIn(groups, stack + [f], g) == HeldIn(groups, stack, g) + Share(f, g)
  {
    assert (stack + [f])[..|stack|] == stack;
  }

  lemma TouchedHeld(s: State, g: string)
    ensures Held(Touched(s), g) == Held(s, g)
  {
    if s.stack == [] {
      var d := Frame(DEFAULT_GROUP, EmptyGroup());
      HeldSnoc(s.groups, [], d, g);
      assert [] + [d] == [d];
    }
  }

  lemma {:induction false} MergedHeld(groups: map<string, RuleGroup>, stack: seq<Frame>, f: Frame, g: string)
    ensures HeldIn(MergeFrame(groups, f), stack, g) == HeldIn(groups, stack, g) + Share(f, g)
  {
    if stack != [] {
      MergedHeld(groups, stack[..|stack| - 1], f, g);
    }
  }

  lemma PoppedHeld(s: State, g: string)
    ensures Held(Popped(s), g) == Held(s, g)
  {
    if s.stack != [] {
      MergedHeld(s.groups, s.stack[..|s.stack| - 1], Top(s), g);
    }
  }

  lemma WithTopHeld(s: State, body: RuleGroup, g: string)
    requires s.stack != []
    ensures Held(WithTop(s, body), g) + Share(Top(s), g) == Held(s, g) + Share(Frame(Top(s).name, body), g)
  {
    var init := s.stack[..|s.stack| - 1];
    assert WithTop(s, body).stack == init + [Frame(Top(s).name, body)];
    HeldSnoc(s.groups, init, Frame(Top(s).name, body), g);
  }

  /** What a step adds to a group: the rule that is written, or those that a new block
      of that name starts with. */
  function Gained(s: State, op: Op, g: string): multiset<Rule> {
    if !op.Line? then multiset{}
    else
      match op.item
      case RuleLine(rule) => if Top(Touched(s)).name == g then multiset{rule} else multiset{}
      case Begin(group, inherit) =>
        var from := Inherited(Touched(s), inherit);
        if group == g && from.Some? then multiset(from.value.rules) else multiset{}
      case _ => multiset{}
  }

  lemma Cancel(x: multiset<Rule>, y: multiset<Rule>, a: multiset<Rule>, r: multiset<Rule>)
    requires x + a == y + (a + r)
    ensures x == y + r
  {
    forall e: Rule ensures x[e] == (y + r)[e] {
      assert (x + a)[e] == (y + (a + r))[e];
    }
  }

  lemma RuleLineHeld(t: State, rule: Rule, g: string)
    requires t.stack != []
    ensures Held(WithTop(t, Top(t).body.(rules := Top(t).body.rules + [rule])), g) ==
            Held(t, g) + (if Top(t).name == g then multiset{rule} else multiset{})
  {
    var body := Top(t).body.(rules := Top(t).body.rules + [rule]);
    WithTopHeld(t, body, g);
    var more := if Top(t).name == g then multiset{rule} else multiset{};
    assert Share(Frame(Top(t).name, body), g) == Share(Top(t), g) + more;
    Cancel(Held(WithTop(t, body), g), Held(t, g), Share(Top(t), g), more);
  }

  lemma ParamHeld(t: State, params: map<string, nat>, g: string)
    requires t.stack != []
    ensures Held(WithTop(t, Top(t).body.(params := params)), g) == Held(t, g)
  {
    var body := Top(t).body.(params := params);
    WithTopHeld(t, body, g);
    Cancel(Held(WithTop(t, body), g), Held(t, g), Share(Top(t), g), multiset{});
  }

  lemma OpenedHeld(t: State, group: string, inherit: Option<string>, g: string)
    ensures Held(Opened(t, group, inherit), g) ==
            Held(t, g) + (if group == g && Inherited(t, inherit).Some? then multiset(Inherited(t, inherit).value.rules) else multiset{})
  {
    var from := Inherited(t, inherit);
    var body := if from.Some? then Merge(EmptyGroup(), from.value) else EmptyGroup();
    assert from.Some? ==> body.rules == from.value.rules;
    HeldSnoc(t.groups, t.stack, Frame(group, body), g);
  }

  lemma InterpretHeld(t: State, item: Item, inGroup: bool, g: string)
    requires t.stack != [] && !item.RuleLine? && !item.Begin?
    ensures Held(Interpret(t, item, inGroup), g) == Held(t, g)
  {
    match item {
      case Param(name, value) => ParamHeld(t, Assign(Top(t).body.params, name, value), g);
      case End => PoppedHeld(t, g);
      case _ =>
    }
  }

  lemma RuleLineIs(s: State, rule: Rule)
    ensures var t := Touched(s);
            NextLine(s, RuleLine(rule)) == WithTop(t, Top(t).body.(rules := Top(t).body.rules + [rule]))
  {
  }

  lemma RuleWrittenHeld(s: State, rule: Rule, g: string)
    ensures Held(NextLine(s, RuleLine(rule)), g) == Held(s, g) + Gained(s, Line(RuleLine(rule)), g)
  {
    TouchedHeld(s, g);
    RuleLineHeld(Touched(s), rule, g);
    RuleLineIs(s, rule);
  }

  lemma BeginHeld(s: State, group: string, inherit: Option<string>, g: string)
    ensures Held(NextLine(s, Begin(group, inherit)), g) == Held(s, g) + Gained(s, Line(Begin(group, inherit)), g)
  {
    var t := Touched(s);
    TouchedHeld(s, g);
    OpenedHeld(t, group, inherit, g);
    assert NextLine(s, Begin(group, inherit)) == Opened(t, group, inherit);
  }

  lemma OtherLineHeld(s: State, item: Item, g: string)
    requires !item.RuleLine? && !item.Begin?
    ensures Held(NextLine(s, item), g) == Held(s, g)
  {
    if !(InGroup(s) && !AllowedInGroup(item)) {
      TouchedHeld(s, g);
      InterpretHeld(Touched(s), item, InGroup(s), g);
    }
  }

  lemma LineHeld(s: State, item: Item, g: string)
    ensures Held(NextLine(s, item), g) == Held(s, g) + Gained(s, Line(item), g)
  {
    match item {
      case RuleLine(rule) => RuleWrittenHeld(s, rule, g);
      case Begin(group, inherit) => BeginHeld(s, group, inherit, g);
      case _ => OtherLineHeld(s, item, g);
    }
  }

  /** Conservation: a step adds what is written and what is inherited, and loses nothing. */
  lemma HeldStep(s: State, op: Op, g: string)
    ensures Held(Next(s, op), g) == Held(s, g) + Gained(s, op, g)
  {
    match op {
      case Enter(_) =>
      case Push(group) => HeldSnoc(s.groups, s.stack, Frame(group, EmptyGroup()), g);
      case Pop => PoppedHeld(s, g);
      case Line(item) => LineHeld(s, item, g);
    }
  }

  /** No rule is lost: whatever is written while a block of some name is innermost ends up in
      the group of that name. */
  lemma {:induction false} NoRuleLost(ops: seq<Op>, g: string)
    ensures Landed(ops, g) <= Held(Run(ops), g)
  {
    if ops != [] {
      var init, op := ops[..|ops| - 1], ops[|ops| - 1];
      NoRuleLost(init, g);
      HeldStep(Run(init), op, g);
      RunMirrors(init);
      TopIsInnermost(Run(init), OpenBlocks(init));
    }
  }

  /** Nothing is inherited by these operations. */
  ghost predicate InheritsNothing(ops: seq<Op>) {
    forall i :: 0 <= i < |ops| && ops[i].Line? && ops[i].item.Begin? ==>
                  ops[i].item.inherit == Some("none") || (ops[i].item.inherit.None? && OpenBlocks(ops[..i]) == [])
  }

  lemma GainedWhereWritten(s: State, open: seq<string>, op: Op, g: string)
    requires Mirrors(s, open)
    requires op.Line? && op.item.Begin? ==> op.item.inherit == Some("none") || (op.item.inherit.None? && open == [])
    ensures Gained(s, op, g) == if op.Line? && op.item.RuleLine? && Innermost(open) == g then multiset{op.item.rule} else multiset{}
  {
    TopIsInnermost(s, open);
    if op.Line? && op.item.Begin? {
      NothingInherited(s, open, op.item.inherit);
    }
  }

  /** Without inheritance a group holds exactly the rules written in blocks of its name. */
  lemma {:induction false} RulesExactlyWhereWritten(ops: seq<Op>, g: string)
    requires InheritsNothing(ops)
    ensures Held(Run(ops), g) == Landed(ops, g)
  {
    if ops != [] {
      var init, op := ops[..|ops| - 1], ops[|ops| - 1];
      assert forall i :: 0 <= i < |init| ==> init[i] == ops[i] && init[..i] == ops[..i];
      RulesExactlyWhereWritten(init, g);
      HeldStep(Run(init), op, g);
      RunMirrors(init);
      GainedWhereWritten(Run(init), OpenBlocks(init), op, g);
    }
  }

  lemma NothingInherited(s: State, open: seq<string>, inherit: Option<string>)
    requires Mirrors(s, open) && (inherit == Some("none") || (inherit.None? && open == []))
    ensures Inherited(Touched(s), inherit).None?
  {
    assert |Names(s.stack)| == |s.stack|;
  }

  // ---------------------------------------------------------------- the finished groups

  function Bodies(frames: seq<Frame>, g: string): seq<RuleGroup> {
    if frames == [] then []
    else Bodies(frames[..|frames| - 1], g) + (if frames[|frames| - 1].name == g then [frames[|frames| - 1].body] else [])
  }

  function MergeBodies(start: RuleGroup, bodies: seq<RuleGroup>): RuleGroup {
    if bodies == [] then start else Merge(MergeBodies(start, bodies[..|bodies| - 1]), bodies[|bodies| - 1])
  }

  /** Merging works group by group. */
  lemma {:induction false} MergeAllByGroup(groups: map<string, RuleGroup>, frames: seq<Frame>, g: string)
    ensures g in MergeAll(groups, frames) <==> g in groups || Bodies(frames, g) != []
    ensures Entry(MergeAll(groups, frames), g) == MergeBodies(Entry(groups, g), Bodies(frames, g))
  {
    if frames != [] {
      var init, f := frames[..|frames| - 1], frames[|frames| - 1];
      MergeAllByGroup(groups, init, g);
      if f.name == g {
        assert Bodies(frames, g)[..|Bodies(frames, g)| - 1] == Bodies(init, g);
      } else {
        assert Bodies(frames, g) == Bodies(init, g);
      }
    }
  }

  /** The finished configuration holds, for every group, what the run held for it. */
  lemma {:induction false} BuiltHolds(groups: map<string, RuleGroup>, frames: seq<Frame>, g: string)
    ensures multiset(Entry(MergeAll(groups, frames), g).rules) == HeldIn(groups, frames, g)
  {
    if frames != [] {
      BuiltHolds(groups, frames[..|frames| - 1], g);
    }
  }

  // ---------------------------------------------------------------- where rules may come from

  /** The group a new block inherits from, by the independent reading. */
  function SourceName(open: seq<string>, inherit: Option<string>): Option<string> {
    if inherit == Some("none") then None
    else if inherit == Some("parent") then Some(Innermost(open))
    else if inherit.Some? then inherit
    else if open == [] then None else Some(Innermost(open))
  }

  /** The groups whose rules may be in a group: the group itself, and when a block of it
      inherits, those that its source could have rules from at that moment. */
  function Ancestry(ops: seq<Op>, g: string): set<string> {
    if ops == [] then {g}
    else
      var init, op := ops[..|ops| - 1], ops[|ops| - 1];
      var source := if op.Line? && op.item.Begin? && op.item.group == g then SourceName(OpenBlocks(init), op.item.inherit) else None;
      Ancestry(init, g) + (if source.Some? then Ancestry(init, source.value) else {})
  }

  /** The rule was written in the group or in one it inherits from. */
  ghost predicate ComesFrom(ops: seq<Op>, g: string, r: Rule) {
    exists h :: h in Ancestry(ops, g) && r in Landed(ops, h)
  }

  lemma {:induction false} SelfAncestor(ops: seq<Op>, g: string)
    ensures g in Ancestry(ops, g)
  {
    if ops != [] {
      SelfAncestor(ops[..|ops| - 1], g);
    }
  }

  lemma ComesFromLater(ops: seq<Op>, g: string, r: Rule)
    requires ops != [] && ComesFrom(ops[..|ops| - 1], g, r)
    ensures ComesFrom(ops, g, r)
  {
    var h :| h in Ancestry(ops[..|ops| - 1], g) && r in Landed(ops[..|ops| - 1], h);
    assert h in Ancestry(ops, g) && r in Landed(ops, h);
  }

  /** Every rule in a merged group or an open frame comes from the group's ancestry. */
  ghost predicate Accounted(ops: seq<Op>, s: State) {
    && (forall g, r :: g in s.groups && r in s.groups[g].rules ==> ComesFrom(ops, g, r))
    && (forall i, r :: 0 <= i < |s.stack| && r in s.stack[i].body.rules ==> ComesFrom(ops, s.stack[i].name, r))
  }

  lemma {:induction false} FirstNamedAccounted(ops: seq<Op>, stack: seq<Frame>, name: string)
    requires forall i, r :: 0 <= i < |stack| && r in stack[i].body.rules ==> ComesFrom(ops, stack[i].name, r)
    ensures FirstNamed(stack, name).Some? ==> forall r :: r in FirstNamed(stack, name).value.rules ==> ComesFrom(ops, name, r)
  {
    if stack != [] && stack[0].name != name {
      assert forall i :: 0 <= i < |stack[1..]| ==> stack[1..][i] == stack[i + 1];
      FirstNamedAccounted(ops, stack[1..], name);
    }
  }

  lemma InheritedAccounted(ops: seq<Op>, s: State, open: seq<string>, inherit: Option<string>)
    requires Accounted(ops, s) && Mirrors(s, open)
    requires Inherited(Touched(s), inherit).Some?
    ensures SourceName(open, inherit).Some?
    ensures forall r :: r in Inherited(Touched(s), inherit).value.rules ==> ComesFrom(ops, SourceName(open, inherit).value, r)
  {
    var t := Touched(s);
    assert |Names(s.stack)| == |s.stack|;
    FirstNamedAccounted(ops, t.stack, DEFAULT_GROUP);
    TopIsInnermost(s, open);
  }

  lemma PoppedAccounted(ops: seq<Op>, s: State)
    requires Accounted(ops, s)
    ensures Accounted(ops, Popped(s))
  {
  }

  lemma WithTopAccounted(ops: seq<Op>, s: State, body: RuleGroup)
    requires s.stack != [] && Accounted(ops, s)
    requires forall r :: r in body.rules ==> r in Top(s).body.rules || ComesFrom(ops, Top(s).name, r)
    ensures Accounted(ops, WithTop(s, body))
  {
  }

  lemma PushedAccounted(ops: seq<Op>, s: State, f: Frame)
    requires Accounted(ops, s) && forall r :: r in f.body.rules ==> ComesFrom(ops, f.name, r)
    ensures Accounted(ops, s.(stack := s.stack + [f]))
  {
  }

  lemma LaterAccounted(ops: seq<Op>, s: State)
    requires ops != [] && Accounted(ops[..|ops| - 1], s)
    ensures Accounted(ops, s)
  {
    forall g: string, r: Rule | ComesFrom(ops[..|ops| - 1], g, r) ensures ComesFrom(ops, g, r) {
      ComesFromLater(ops, g, r);
    }
  }

  /** A new block starts with rules of its source, which is an ancestor from then on. */
  lemma BeginAccounted(ops: seq<Op>, s: State, group: string, inherit: Option<string>)
    requires ops != [] && ops[|ops| - 1] == Line(Begin(group, inherit))
    requires Accounted(ops[..|ops| - 1], s) && Mirrors(s, OpenBlocks(ops[..|ops| - 1]))
    ensures Accounted(ops, Opened(Touched(s), group, inherit))
  {
    var init := ops[..|ops| - 1];
    var from := Inherited(Touched(s), inherit);
    LaterAccounted(ops, s);
    if from.Some? {
      InheritedAccounted(init, s, OpenBlocks(init), inherit);
      var source := SourceName(OpenBlocks(init), inherit).value;
      forall r | r in from.value.rules ensures ComesFrom(ops, group, r) {
        var h :| h in Ancestry(init, source) && r in Landed(init, h);
        assert h in Ancestry(ops, group) && r in Landed(ops, h);
      }
    }
    PushedAccounted(ops, Touched(s), Frame(group, if from.Some? then Merge(EmptyGroup(), from.value) else EmptyGroup()));
  }

  lemma RuleAccounted(ops: seq<Op>, s: State, rule: Rule)
    requires ops != [] && ops[|ops| - 1] == Line(RuleLine(rule))
    requires Accounted(ops[..|ops| - 1], s) && Mirrors(s, OpenBlocks(ops[..|ops| - 1]))
    ensures Accounted(ops, NextLine(s, RuleLine(rule)))
  {
    var t := Touched(s);
    LaterAccounted(ops, s);
    TopIsInnermost(s, OpenBlocks(ops[..|ops| - 1]));
    SelfAncestor(ops, Top(t).name);
    assert rule in Landed(ops, Top(t).name);
    WithTopAccounted(ops, t, Top(t).body.(rules := Top(t).body.rules + [rule]));
  }

  lemma OtherAccounted(ops: seq<Op>, s: State, item: Item)
    requires !item.RuleLine? && !item.Begin? && Accounted(ops, s)
    ensures Accounted(ops, NextLine(s, item))
  {
    var t := Touched(s);
    match item {
      case Param(name, value) => WithTopAccounted(ops, t, Top(t).body.(params := Assign(Top(t).body.params, name, value)));
      case End => PoppedAccounted(ops, t);
      case _ =>
    }
  }

  lemma {:induction false} RunAccounted(ops: seq<Op>)
    ensures Accounted(ops, Run(ops))
  {
    if ops != [] {
      var init, op := ops[..|ops| - 1], ops[|ops| - 1];
      var s := Run(init);
      RunAccounted(init);
      RunMirrors(init);
      LaterAccounted(ops, s);
      match op {
        case Enter(_) =>
        case Push(group) => PushedAccounted(ops, s, Frame(group, EmptyGroup()));
        case Pop => PoppedAccounted(ops, s);
        case Line(item) =>
          match item {
            case RuleLine(rule) => RuleAccounted(ops, s, rule);
            case Begin(group, inherit) => BeginAccounted(ops, s, group, inherit);
            case _ => OtherAccounted(ops, s, item);
          }
      }
    }
  }

  lemma {:induction false} HeldMember(groups: map<string, RuleGroup>, stack: seq<Frame>, g: string, r: Rule)
    requires r in HeldIn(groups, stack, g)
    ensures (g in groups && r in groups[g].rules) || exists i :: 0 <= i < |stack| && stack[i].name == g && r in stack[i].body.rules
  {
    if stack != [] {
      var init, f := stack[..|stack| - 1], stack[|stack| - 1];
      if r in HeldIn(groups, init, g) {
        HeldMember(groups, init, g, r);
      } else {
        assert r in Share(f, g);
      }
    }
  }

  /** Every rule line of a configuration, closed blocks or not, stray ends or not, is in the
      finished group of its innermost open block; a rule is there only when it was written in
      that group or in one it inherits from, transitively; and without inheritance each is
      there exactly as often as it was written there. */
  lemma FinishedGroups(ops: seq<Op>, g: string)
    ensures Landed(ops, g) <= multiset(Entry(Built(Run(ops)), g).rules)
    ensures forall r :: r in Entry(Built(Run(ops)), g).rules ==> ComesFrom(ops, g, r)
    ensures InheritsNothing(ops) ==> multiset(Entry(Built(Run(ops)), g).rules) == Landed(ops, g)
  {
    var s := Run(ops);
    BuiltHolds(s.groups, s.stack, g);
    NoRuleLost(ops, g);
    forall r | r in Entry(Built(s), g).rules ensures ComesFrom(ops, g, r) {
      assert r in multiset(Entry(Built(s), g).rules);
      HeldMember(s.groups, s.stack, g, r);
      RunAccounted(ops);
    }
    if InheritsNothing(ops) {
      RulesExactlyWhereWritten(ops, g);
    }
  }

  /** The rules that blocks of a name started with. */
  function Copied(ops: seq<Op>, g: string): multiset<Rule> {
    if ops == [] then multiset{}
    else
      var init, op := ops[..|ops| - 1], ops[|ops| - 1];
      Copied(init, g) +
      (if op.Line? && op.item.Begin? && op.item.group == g then multiset(StartsWith(init, op.item.inherit).rules) else multiset{})
  }

  lemma BeginGained(ops: seq<Op>, group: string, inherit: Option<string>, g: string)
    requires NeverBarePush(ops)
    ensures Gained(Run(ops), Line(Begin(group, inherit)), g) ==
            if group == g then multiset(StartsWith(ops, inherit).rules) else multiset{}
  {
    var t := Touched(Run(ops));
    RunSnoc(ops, Line(Begin(group, inherit)));
    BlockStartsWith(ops, group, inherit);
    assert NextLine(Run(ops), Begin(group, inherit)) == Opened(t, group, inherit);
    var from := Inherited(t, inherit);
    var body := if from.Some? then Merge(EmptyGroup(), from.value) else EmptyGroup();
    assert Opened(t, group, inherit).stack[|t.stack|] == Frame(group, body);
    assert body == StartsWith(ops, inherit);
    assert from.Some? ==> body.rules == from.value.rules;
  }

  lemma LineGained(ops: seq<Op>, op: Op, g: string)
    requires NeverBarePush(ops)
    ensures Landed(ops + [op], g) + Copied(ops + [op], g) == Landed(ops, g) + Copied(ops, g) + Gained(Run(ops), op, g)
  {
    assert (ops + [op])[..|ops|] == ops;
    RunMirrors(ops);
    TopIsInnermost(Run(ops), OpenBlocks(ops));
    if op.Line? && op.item.Begin? {
      BeginGained(ops, op.item.group, op.item.inherit, g);
    }
  }

  lemma {:induction false} HeldExactly(ops: seq<Op>, g: string)
    requires NeverBarePush(ops)
    ensures Held(Run(ops), g) == Landed(ops, g) + Copied(ops, g)
  {
    if ops != [] {
      var init, op := ops[..|ops| - 1], ops[|ops| - 1];
      PrefixNeverBare(ops);
      HeldExactly(init, g);
      assert ops == init + [op];
      HeldStep(Run(init), op, g);
      LineGained(init, op, g);
    }
  }

  /** With inheritance a finished group holds, exactly as often as that, the rules written in
      blocks of its name and those its blocks started with when they were opened. */
  lemma FinishedGroupsExactly(ops: seq<Op>, g: string)
    requires NeverBarePush(ops)
    ensures multiset(Entry(Built(Run(ops)), g).rules) == Landed(ops, g) + Copied(ops, g)
  {
    BuiltHolds(Run(ops).groups, Run(ops).stack, g);
    HeldExactly(ops, g);
  }

  /** A group, once closed, only grows: its rules stay in front and its scalars stay put, so
      of several blocks of one name the first that sets a scalar decides. */
  lemma {:induction false} ClosedGroupsOnlyGrow(s: State, more: seq<Op>, g: string)
    requires g in s.groups
    ensures g in RunFrom(s, more).groups
    ensures s.groups[g].rules <= RunFrom(s, more).groups[g].rules
    ensures forall p :: p in s.groups[g].params ==>
              p in RunFrom(s, more).groups[g].params && RunFrom(s, more).groups[g].params[p] == s.groups[g].params[p]
  {
    if more != [] {
      ClosedGroupsOnlyGrow(s, more[..|more| - 1], g);
      GroupsStep(RunFrom(s, more[..|more| - 1]), more[|more| - 1]);
    }
  }

  lemma GroupsStep(s: State, op: Op)
    ensures Next(s, op).groups == s.groups ||
            (Closes(op) && var t := if op.Line? then Touched(s) else s; t.stack != [] && Next(s, op).groups == MergeFrame(s.groups, Top(t)))
  {
  }

  // ---------------------------------------------------------------- blocks left open

  function Reversed(frames: seq<Frame>): (r: seq<Frame>)
    ensures |r| == |frames| && forall i :: 0 <= i < |frames| ==> r[i] == frames[|frames| - 1 - i]
  {
    seq(|frames|, i requires 0 <= i < |frames| => frames[|frames| - 1 - i])
  }

  function Ends(n: nat): (ops: seq<Op>)
    ensures |ops| == n && forall i :: 0 <= i < n ==> ops[i] == Line(End)
  {
    seq(n, _ => Line(End))
  }

  function PopTimes(s: State, n: nat): State {
    if n == 0 then s else Popped(PopTimes(s, n - 1))
  }

  lemma {:induction false} PopTimesStack(s: State, n: nat)
    requires n <= |s.stack|
    ensures PopTimes(s, n).stack == s.stack[..|s.stack| - n]
  {
    if n > 0 {
      PopTimesStack(s, n - 1);
      assert s.stack[..|s.stack| - (n - 1)][..|s.stack| - n] == s.stack[..|s.stack| - n];
    }
  }

  lemma {:induction false} EndsPop(s: State, n: nat)
    requires n <= |s.stack|
    ensures RunFrom(s, Ends(n)) == PopTimes(s, n)
  {
    if n > 0 {
      EndsPop(s, n - 1);
      PopTimesStack(s, n - 1);
      assert Ends(n)[..n - 1] == Ends(n - 1);
      EndPops(PopTimes(s, n - 1));
    }
  }

  lemma EndPops(s: State)
    requires s.stack != []
    ensures Next(s, Line(End)) == Popped(s)
  {
  }

  lemma MergeAllSnoc(groups: map<string, RuleGroup>, frames: seq<Frame>, f: Frame)
    ensures MergeAll(groups, frames + [f]) == MergeFrame(MergeAll(groups, frames), f)
  {
    assert (frames + [f])[..|frames|] == frames;
  }

  lemma ReversedTake(stack: seq<Frame>, n: nat)
    requires 0 < n <= |stack|
    ensures Reversed(stack)[..n] == Reversed(stack)[..n - 1] + [stack[|stack| - n]]
  {
  }

  lemma PoppedGroups(t: State, stack: seq<Frame>, n: nat)
    requires 0 < n <= |stack| && t.stack == stack[..|stack| - (n - 1)]
    ensures Popped(t).groups == MergeFrame(t.groups, stack[|stack| - n])
  {
  }

  lemma NothingMerged(s: State)
    ensures MergeAll(s.groups, Reversed(s.stack)[..0]) == s.groups
  {
  }

  lemma {:induction false} PopTimesGroups(s: State, n: nat)
    requires n <= |s.stack|
    ensures PopTimes(s, n).groups == MergeAll(s.groups, Reversed(s.stack)[..n])
  {
    hide Popped, MergeFrame, MergeAll, Reversed;
    if n == 0 {
      NothingMerged(s);
    } else {
      PopTimesGroups(s, n - 1);
      PopTimesStack(s, n - 1);
      ReversedTake(s.stack, n);
      MergeAllSnoc(s.groups, Reversed(s.stack)[..n - 1], s.stack[|s.stack| - n]);
      PoppedGroups(PopTimes(s, n - 1), s.stack, n);
    }
  }

  ghost predicate DistinctNames(names: seq<string>) {
    forall i, j :: 0 <= i < j < |names| ==> names[i] != names[j]
  }

  lemma {:induction false} AtMostOneBody(frames: seq<Frame>, g: string)
    requires DistinctNames(Names(frames))
    ensures |Bodies(frames, g)| <= 1
    ensures forall i :: 0 <= i < |frames| && frames[i].name == g ==> Bodies(frames, g) == [frames[i].body]
    ensures (forall i :: 0 <= i < |frames| ==> frames[i].name != g) ==> Bodies(frames, g) == []
  {
    if frames != [] {
      var init, f := frames[..|frames| - 1], frames[|frames| - 1];
      assert forall i :: 0 <= i < |init| ==> Names(frames)[i] == Names(init)[i];
      AtMostOneBody(init, g);
      if f.name == g {
        assert forall i :: 0 <= i < |init| ==> init[i].name != g by {
          assert Names(frames)[|frames| - 1] == g;
          forall i | 0 <= i < |init| ensures init[i].name != g {
            assert Names(frames)[i] != Names(frames)[|frames| - 1];
          }
        }
      }
    }
  }

  lemma MergeOrderIrrelevant(groups: map<string, RuleGroup>, frames: seq<Frame>)
    requires DistinctNames(Names(frames))
    ensures MergeAll(groups, Reversed(frames)) == MergeAll(groups, frames)
  {
    var a, b := MergeAll(groups, Reversed(frames)), MergeAll(groups, frames);
    assert DistinctNames(Names(Reversed(frames)));
    forall g ensures (g in a <==> g in b) && Entry(a, g) == Entry(b, g) {
      MergeAllByGroup(groups, Reversed(frames), g);
      MergeAllByGroup(groups, frames, g);
      AtMostOneBody(frames, g);
      AtMostOneBody(Reversed(frames), g);
      if i :| 0 <= i < |frames| && frames[i].name == g {
        assert Reversed(frames)[|frames| - 1 - i] == frames[i];
      }
    }
    assert a.Keys == b.Keys;
    forall g | g in a ensures a[g] == b[g] {
      assert Entry(a, g) == Entry(b, g);
    }
  }

  lemma {:induction false} BodiesFirst(frames: seq<Frame>, g: string, i: nat)
    requires i < |frames| && frames[i].name == g && forall j :: 0 <= j < i ==> frames[j].name != g
    ensures Bodies(frames, g) != [] && Bodies(frames, g)[0] == frames[i].body
  {
    var init := frames[..|frames| - 1];
    if i < |init| {
      BodiesFirst(init, g, i);
    } else {
      NoBodies(init, g);
    }
  }

  lemma {:induction false} NoBodies(frames: seq<Frame>, g: string)
    requires forall j :: 0 <= j < |frames| ==> frames[j].name != g
    ensures Bodies(frames, g) == []
  {
    if frames != [] {
      NoBodies(frames[..|frames| - 1], g);
    }
  }

  /** Of merged blocks the rules of the first come first. */
  lemma {:induction false} FirstBodyLeads(bodies: seq<RuleGroup>)
    requires bodies != [] && bodies[0].rules != []
    ensures MergeBodies(EmptyGroup(), bodies).rules != [] && MergeBodies(EmptyGroup(), bodies).rules[0] == bodies[0].rules[0]
  {
    if |bodies| == 1 {
      assert bodies[..0] == [];
      assert MergeBodies(EmptyGroup(), bodies) == Merge(EmptyGroup(), bodies[0]);
    } else {
      FirstBodyLeads(bodies[..|bodies| - 1]);
    }
  }

  /** One frame of each name, each holding one rule that tells its position. */
  function Numbered(names: seq<string>): (frames: seq<Frame>)
    ensures |frames| == |names|
    ensures forall k :: 0 <= k < |names| ==> frames[k] == Frame(names[k], RuleGroup([Rule(k, "")], map[]))
  {
    seq(|names|, k requires 0 <= k < |names| => Frame(names[k], RuleGroup([Rule(k, "")], map[])))
  }

  lemma NumberedWinner(frames: seq<Frame>, g: string, i: nat, v: nat)
    requires i < |frames| && frames[i].name == g && forall j :: 0 <= j < i ==> frames[j].name != g
    requires frames[i].body.rules == [Rule(v, "")]
    ensures Entry(MergeAll(map[], frames), g).rules != [] && Entry(MergeAll(map[], frames), g).rules[0] == Rule(v, "")
  {
    MergeAllByGroup(map[], frames, g);
    BodiesFirst(frames, g, i);
    FirstBodyLeads(Bodies(frames, g));
  }

  lemma FirstAndLast(names: seq<string>, i: nat, j: nat) returns (first: nat, last: nat)
    requires i < j < |names| && names[i] == names[j]
    ensures first < last < |names| && names[first] == names[last] == names[i]
    ensures forall k :: 0 <= k < first ==> names[k] != names[i]
    ensures forall k :: last < k < |names| ==> names[k] != names[i]
  {
    first, last := 0, |names| - 1;
    while names[first] != names[i]
      invariant first <= i && forall k :: 0 <= k < first ==> names[k] != names[i]
      decreases i - first
    {
      first := first + 1;
    }
    while names[last] != names[i]
      invariant j <= last < |names| && forall k :: last < k < |names| ==> names[k] != names[i]
      decreases last - j
    {
      last := last - 1;
    }
  }

  /** Merged top to bottom, the last block of a name leads. */
  lemma NumberedBackwards(names: seq<string>, last: nat)
    requires last < |names| && forall k :: last < k < |names| ==> names[k] != names[last]
    ensures var e := Entry(MergeAll(map[], Reversed(Numbered(names))), names[last]);
            e.rules != [] && e.rules[0] == Rule(last, "")
  {
    var frames := Numbered(names);
    var back, k := Reversed(frames), |names| - 1 - last;
    assert back[k] == frames[last];
    forall m | 0 <= m < k ensures back[m].name != names[last] {
      assert back[m] == frames[|names| - 1 - m];
    }
    NumberedWinner(back, names[last], k, last);
  }

  lemma RepeatedNamesMatter(names: seq<string>, i: nat, j: nat)
    requires i < j < |names| && names[i] == names[j]
    ensures MergeAll(map[], Reversed(Numbered(names))) != MergeAll(map[], Numbered(names))
  {
    var first, last := FirstAndLast(names, i, j);
    NumberedWinner(Numbered(names), names[i], first, first);
    NumberedBackwards(names, last);
  }

  /** A configuration that leaves blocks of these names open: one rule at the top level, then
      each block inside the last, inheriting nothing, with one rule. */
  function OpeningLines(open: seq<string>): seq<Op> {
    if open == [] then [Line(RuleLine(Rule(0, "")))]
    else
      OpeningLines(open[..|open| - 1])
      + [Line(Begin(open[|open| - 1], Some("none")))] + [Line(RuleLine(Rule(|open|, "")))]
  }

  lemma NumberedSnoc(names: seq<string>, name: string)
    ensures Numbered(names + [name]) == Numbered(names) + [Frame(name, RuleGroup([Rule(|names|, "")], map[]))]
  {
  }

  lemma OpenOneMore(s: State, name: string, rule: Rule)
    requires s.stack != []
    ensures NextLine(NextLine(s, Begin(name, Some("none"))), RuleLine(rule)) ==
            s.(stack := s.stack + [Frame(name, RuleGroup([rule], map[]))])
  {
    var t := NextLine(s, Begin(name, Some("none")));
    assert t == s.(stack := s.stack + [Frame(name, EmptyGroup())]);
    assert [] + [rule] == [rule];
    assert NextLine(t, RuleLine(rule)) == WithTop(t, RuleGroup([rule], map[]));
  }

  lemma OpenedByLines(before: seq<Op>, name: string, rule: Rule)
    requires Run(before).stack != []
    ensures Run(before + [Line(Begin(name, Some("none")))] + [Line(RuleLine(rule))]) ==
            Run(before).(stack := Run(before).stack + [Frame(name, RuleGroup([rule], map[]))])
  {
    hide *;
    var begin := Line(Begin(name, Some("none")));
    RunSnoc(before, begin);
    RunSnoc(before + [begin], Line(RuleLine(rule)));
    OpenOneMore(Run(before), name, rule);
    LineIsNextLine(Run(before), Begin(name, Some("none")));
    LineIsNextLine(Next(Run(before), begin), RuleLine(rule));
  }

  lemma LineIsNextLine(s: State, item: Item)
    ensures Next(s, Line(item)) == NextLine(s, item)
  {
  }

  lemma TopLevelRule(rule: Rule)
    ensures Run([Line(RuleLine(rule))]) == State([Frame(DEFAULT_GROUP, RuleGroup([rule], map[]))], map[], map[], [], [])
  {
    hide *;
    assert [Line(RuleLine(rule))] == [] + [Line(RuleLine(rule))];
    RunSnoc([], Line(RuleLine(rule)));
    RunNothing();
    LineIsNextLine(Start(), RuleLine(rule));
    FirstRule(rule);
  }

  lemma RunNothing()
    ensures Run([]) == Start()
  {
  }

  lemma FirstRule(rule: Rule)
    ensures NextLine(Start(), RuleLine(rule)) == State([Frame(DEFAULT_GROUP, RuleGroup([rule], map[]))], map[], map[], [], [])
  {
    RuleLineIs(Start(), rule);
    assert Touched(Start()).stack == [Frame(DEFAULT_GROUP, EmptyGroup())];
    assert [] + [rule] == [rule];
  }

  lemma {:induction false} OpeningLinesRun(open: seq<string>)
    ensures Run(OpeningLines(open)) == State(Numbered([DEFAULT_GROUP] + open), map[], map[], [], [])
  {
    if open == [] {
      TopLevelRule(Rule(0, ""));
      assert [DEFAULT_GROUP] + open == [DEFAULT_GROUP];
      assert Numbered([DEFAULT_GROUP]) == [Frame(DEFAULT_GROUP, RuleGroup([Rule(0, "")], map[]))];
    } else {
      var init, name := open[..|open| - 1], open[|open| - 1];
      OpeningLinesRun(init);
      OpenedByLines(OpeningLines(init), name, Rule(|open|, ""));
      NumberedSnoc([DEFAULT_GROUP] + init, name);
      assert [DEFAULT_GROUP] + open == [DEFAULT_GROUP] + init + [name];
    }
  }

  /** For a whole configuration: appending the missing ends changes nothing in the groups when
      the open blocks have different names. */
  lemma MissingEndsHarmless(ops: seq<Op>)
    requires DistinctNames(Names(Run(ops).stack))
    ensures Run(ops + Ends(|Run(ops).stack|)).groups == Built(Run(ops))
    ensures Run(ops + Ends(|Run(ops).stack|)).stack == []
  {
    var s := Run(ops);
    var n := |s.stack|;
    RunFromConcat(Start(), ops, Ends(n));
    EndsPop(s, n);
    PopTimesStack(s, n);
    PopTimesGroups(s, n);
    assert Reversed(s.stack)[..n] == Reversed(s.stack);
    MergeOrderIrrelevant(s.groups, s.stack);
  }

  lemma EndsMergeBackwards(ops: seq<Op>)
    ensures Run(ops + Ends(|Run(ops).stack|)).groups == MergeAll(Run(ops).groups, Reversed(Run(ops).stack))
  {
    var s := Run(ops);
    RunFromConcat(Start(), ops, Ends(|s.stack|));
    EndsPop(s, |s.stack|);
    PopTimesGroups(s, |s.stack|);
    assert Reversed(s.stack)[..|s.stack|] == Reversed(s.stack);
  }

  /** Whatever a configuration says that leaves blocks of these names open, appending the
      missing ends changes nothing in the groups. */
  ghost predicate EndsHarmless(open: seq<string>) {
    forall ops: seq<Op> :: Names(Run(ops).stack) == [DEFAULT_GROUP] + open ==>
                             Run(ops + Ends(|open| + 1)).groups == Built(Run(ops))
  }

  /** An unclosed block counts "as if its end stood at the end of the configuration" exactly
      when no two frames left open share a name: the build merges them bottom to top, written
      ends would merge them top to bottom, and of two blocks the first merged leads. */
  lemma UnclosedAsIfClosedExactly(open: seq<string>)
    ensures EndsHarmless(open) <==> DistinctNames([DEFAULT_GROUP] + open)
  {
    var names := [DEFAULT_GROUP] + open;
    if DistinctNames(names) {
      forall ops: seq<Op> | Names(Run(ops).stack) == names ensures Run(ops + Ends(|open| + 1)).groups == Built(Run(ops)) {
        MissingEndsHarmless(ops);
      }
    } else {
      var i, j :| 0 <= i < j < |names| && names[i] == names[j];
      var ops := OpeningLines(open);
      OpeningLinesRun(open);
      RepeatedNamesMatter(names, i, j);
      EndsMergeBackwards(ops);
      assert Names(Run(ops).stack) == names;
    }
  }

  /** The scalar of a group depends on it too: two nested blocks of one name, neither closed.
      The build lets the outer value stand, written ends would let the inner one. */
  lemma UnclosedScalarDiffers(ops: seq<Op>)
    requires ops == [Line(Begin("g", None))] + [Line(Param("rr-ttl", Some(1)))]
                    + [Line(Begin("g", Some("none")))] + [Line(Param("rr-ttl", Some(2)))]
    ensures Entry(Built(Run(ops)), "g").params == map["rr-ttl" := 1]
    ensures Entry(Run(ops + Ends(3)).groups, "g").params == map["rr-ttl" := 2]
  {
    var frames := [Frame(DEFAULT_GROUP, EmptyGroup())] + [Frame("g", RuleGroup([], map["rr-ttl" := 1]))]
                  + [Frame("g", RuleGroup([], map["rr-ttl" := 2]))];
    NestedBlocksStack(ops, frames);
    EndsMergeBackwards(ops);
    assert frames == [frames[0]] + [frames[1]] + [frames[2]];
    assert Reversed(frames) == [frames[2]] + [frames[1]] + [frames[0]];
    OuterDecides(frames[0], frames[1], frames[2], 1, 2);
    InnerDecides(frames[2], frames[1], frames[0], 2, 1);
  }

  lemma ThreeFrames(a: Frame, b: Frame, c: Frame)
    ensures MergeAll(map[], [a] + [b] + [c]) == MergeFrame(MergeFrame(MergeFrame(map[], a), b), c)
  {
    MergeAllSnoc(map[], [a] + [b], c);
    MergeAllSnoc(map[], [a], b);
    MergeAllSnoc(map[], [], a);
    assert [] + [a] == [a];
  }

  lemma OuterDecides(d: Frame, outer: Frame, inner: Frame, x: nat, y: nat)
    requires d.name == DEFAULT_GROUP && outer.name == inner.name == "g"
    requires outer.body.params == map["rr-ttl" := x] && inner.body.params == map["rr-ttl" := y]
    ensures Entry(MergeAll(map[], [d] + [outer] + [inner]), "g").params == map["rr-ttl" := x]
  {
    ThreeFrames(d, outer, inner);
    var m := MergeFrame(MergeFrame(map[], d), outer);
    assert Entry(m, "g").params == map["rr-ttl" := x];
  }

  lemma InnerDecides(inner: Frame, outer: Frame, d: Frame, y: nat, x: nat)
    requires d.name == DEFAULT_GROUP && outer.name == inner.name == "g"
    requires outer.body.params == map["rr-ttl" := x] && inner.body.params == map["rr-ttl" := y]
    ensures Entry(MergeAll(map[], [inner] + [outer] + [d]), "g").params == map["rr-ttl" := y]
  {
    ThreeFrames(inner, outer, d);
    var m := MergeFrame(MergeFrame(map[], inner), outer);
    assert Entry(m, "g").params == map["rr-ttl" := y];
  }

  lemma NestedBlocksStack(ops: seq<Op>, frames: seq<Frame>)
    requires ops == [Line(Begin("g", None))] + [Line(Param("rr-ttl", Some(1)))]
                    + [Line(Begin("g", Some("none")))] + [Line(Param("rr-ttl", Some(2)))]
    requires frames == [Frame(DEFAULT_GROUP, EmptyGroup())] + [Frame("g", RuleGroup([], map["rr-ttl" := 1]))]
                       + [Frame("g", RuleGroup([], map["rr-ttl" := 2]))]
    ensures Run(ops).stack == frames && Run(ops).groups == map[]
  {
    var a, b := Line(Begin("g", None)), Line(Param("rr-ttl", Some(1)));
    var c, d := Line(Begin("g", Some("none"))), Line(Param("rr-ttl", Some(2)));
    assert [a] == [] + [a];
    RunSnoc([], a);
    assert Run([a]).stack == frames[..1] + [Frame("g", EmptyGroup())] && Run([a]).groups == map[];
    RunSnoc([a], b);
    assert Run([a] + [b]).stack == frames[..2] && Run([a] + [b]).groups == map[];
    RunSnoc([a] + [b], c);
    assert Run([a] + [b] + [c]).stack == frames[..2] + [Frame("g", EmptyGroup())] && Run([a] + [b] + [c]).groups == map[];
    RunSnoc([a] + [b] + [c], d);
  }

  // ---------------------------------------------------------------- client rules

  /** The group each client rule names, by the independent reading. */
  function ClientsRead(ops: seq<Op>): seq<(string, string)> {
    if ops == [] then []
    else
      var init, op := ops[..|ops| - 1], ops[|ops| - 1];
      ClientsRead(init) +
      (if op.Line? && op.item.Client?
       then [(op.item.client, if op.item.target == "" then Innermost(OpenBlocks(init)) else op.item.target)] else [])
  }

  /** A client rule without a group of its own belongs to its innermost open block. */
  lemma {:induction false} ClientsJoinInnermost(ops: seq<Op>)
    ensures Run(ops).clients == ClientsRead(ops)
  {
    if ops != [] {
      var init, op := ops[..|ops| - 1], ops[|ops| - 1];
      ClientsJoinInnermost(init);
      RunMirrors(init);
      TopIsInnermost(Run(init), OpenBlocks(init));
      ClientsStep(Run(init), op);
    }
  }

  lemma ClientsStep(s: State, op: Op)
    ensures Next(s, op).clients == s.clients +
            (if op.Line? && op.item.Client?
             then [(op.item.client, if op.item.target == "" then Top(Touched(s)).name else op.item.target)] else [])
  {
    assert s.clients + [] == s.clients;
  }
}
