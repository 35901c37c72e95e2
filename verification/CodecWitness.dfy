/** The assumptions on the library codecs can be met: one set of codecs that is faithful on
    every message, every non-empty text and every options value the format has room for.
    It is built from a few readers that are proved to delimit themselves. */
module CodecWitness {
  import opened Dns
  import opened Lru
  import opened Cache
  import opened CacheFile
  import opened CachePersist

  datatype Codec<!T> = Codec(emit: T -> Bytes, read: Reader<T>)

  /** Delimits itself: every value comes back whatever follows, and never from a cut form. */
  ghost predicate Good<T(!new)>(c: Codec<T>) {
    forall x :: Reads(c.read, c.emit(x), x) && RejectsCut(c.read, c.emit(x))
  }

  // ---------------------------------------------------------------- numbers

  function EmitCount(n: nat): (b: Bytes)
    ensures |b| == n + 1
  {
    if n == 0 then [0] else [1] + EmitCount(n - 1)
  }

  function ReadCount(d: Bytes): Parsed<nat> {
    if d == [] || d[0] > 1 then Parsed.Bad
    else if d[0] == 0 then Parsed.Good(0, d[1..])
    else
      match ReadCount(d[1..])
      case Bad => Parsed.Bad
      case Good(n, rest) => Parsed.Good(n + 1, rest)
  }

  function Count(): Codec<nat> {
    Codec((n: nat) => EmitCount(n), (d: Bytes) => ReadCount(d))
  }

  lemma {:induction false} CountReads(n: nat, rest: Bytes)
    ensures ReadCount(EmitCount(n) + rest) == Parsed.Good(n, rest)
  {
    if n == 0 {
      assert ([0] + rest)[1..] == rest;
    } else {
      CountReads(n - 1, rest);
      assert (EmitCount(n) + rest)[1..] == EmitCount(n - 1) + rest;
    }
  }

  lemma {:induction false} CountRejectsCut(n: nat, k: nat)
    requires k < |EmitCount(n)|
    ensures ReadCount(EmitCount(n)[..k]).Bad?
  {
    if k > 0 {
      CountRejectsCut(n - 1, k - 1);
      assert EmitCount(n)[..k][1..] == EmitCount(n - 1)[..k - 1];
    }
  }

  lemma CountGood()
    ensures Good(Count())
  {
    forall n: nat ensures Reads(Count().read, Count().emit(n), n) && RejectsCut(Count().read, Count().emit(n)) {
      forall rest ensures Count().read(Count().emit(n) + rest) == Parsed.Good(n, rest) {
        CountReads(n, rest);
      }
      forall k: nat | k < |Count().emit(n)| ensures Count().read(Count().emit(n)[..k]).Bad? {
        CountRejectsCut(n, k);
      }
    }
  }

  // ---------------------------------------------------------------- pairs, lists, conversions

  function Pair<A, B>(a: Codec<A>, b: Codec<B>): Codec<(A, B)> {
    Codec((x: (A, B)) => a.emit(x.0) + b.emit(x.1), Then(a.read, b.read))
  }

  lemma PairGood<A(!new), B(!new)>(a: Codec<A>, b: Codec<B>)
    requires Good(a) && Good(b)
    ensures Good(Pair(a, b))
  {
    var c := Pair(a, b);
    forall x: (A, B) ensures Reads(c.read, c.emit(x), x) && RejectsCut(c.read, c.emit(x)) {
      ThenLaws(a.read, a.emit(x.0), x.0, b.read, b.emit(x.1), x.1);
    }
  }

  function Mapped<A, B>(a: Codec<A>, to: B -> A, from: A -> B): Codec<B> {
    Codec((x: B) => a.emit(to(x)),
          (d: Bytes) => match a.read(d) case Bad => Parsed.Bad case Good(v, rest) => Parsed.Good(from(v), rest))
  }

  lemma MappedGood<A(!new), B(!new)>(a: Codec<A>, to: B -> A, from: A -> B)
    requires Good(a) && forall x: B :: from(to(x)) == x
    ensures Good(Mapped(a, to, from))
  {
    var c := Mapped(a, to, from);
    forall x: B ensures Reads(c.read, c.emit(x), x) && RejectsCut(c.read, c.emit(x)) {
      assert Reads(a.read, a.emit(to(x)), to(x)) && RejectsCut(a.read, a.emit(to(x)));
    }
  }

  function EmitMany<A>(a: Codec<A>, s: seq<A>): Bytes {
    if s == [] then [0] else [1] + (a.emit(s[0]) + EmitMany(a, s[1..]))
  }

  function ReadMany<A>(a: Codec<A>, d: Bytes): Parsed<seq<A>>
    decreases |d|
  {
    if d == [] || d[0] > 1 then Parsed.Bad
    else if d[0] == 0 then Parsed.Good([], d[1..])
    else
      match a.read(d[1..])
      case Bad => Parsed.Bad
      case Good(x, rest) =>
        if |rest| >= |d| then Parsed.Bad
        else
          match ReadMany(a, rest)
          case Bad => Parsed.Bad
          case Good(xs, rest2) => Parsed.Good([x] + xs, rest2)
  }

  function Many<A>(a: Codec<A>): Codec<seq<A>> {
    Codec((s: seq<A>) => EmitMany(a, s), (d: Bytes) => ReadMany(a, d))
  }

  lemma {:induction false} ManyReads<A(!new)>(a: Codec<A>, s: seq<A>, rest: Bytes)
    requires Good(a)
    ensures ReadMany(a, EmitMany(a, s) + rest) == Parsed.Good(s, rest)
    decreases |s|
  {
    var d := EmitMany(a, s) + rest;
    if s == [] {
      assert d[1..] == rest;
    } else {
      var tail := EmitMany(a, s[1..]) + rest;
      ManyReads(a, s[1..], rest);
      assert d[1..] == a.emit(s[0]) + tail;
      assert Reads(a.read, a.emit(s[0]), s[0]);
      assert a.read(a.emit(s[0]) + tail) == Parsed.Good(s[0], tail);
      assert [s[0]] + s[1..] == s;
    }
  }

  lemma {:induction false} ManyRejectsCut<A(!new)>(a: Codec<A>, s: seq<A>, k: nat)
    requires Good(a) && k < |EmitMany(a, s)|
    ensures ReadMany(a, EmitMany(a, s)[..k]).Bad?
    decreases |s|
  {
    if k > 0 && s != [] {
      var x, tail := a.emit(s[0]), EmitMany(a, s[1..]);
      var d := EmitMany(a, s)[..k];
      assert Reads(a.read, x, s[0]) && RejectsCut(a.read, x);
      if k - 1 < |x| {
        assert d[1..] == x[..k - 1];
      } else {
        assert d[1..] == x + tail[..k - 1 - |x|];
        assert a.read(x + tail[..k - 1 - |x|]) == Parsed.Good(s[0], tail[..k - 1 - |x|]);
        ManyRejectsCut(a, s[1..], k - 1 - |x|);
      }
    }
  }

  lemma ManyGood<A(!new)>(a: Codec<A>)
    requires Good(a)
    ensures Good(Many(a))
  {
    var c := Many(a);
    forall s: seq<A> ensures Reads(c.read, c.emit(s), s) && RejectsCut(c.read, c.emit(s)) {
      forall rest ensures c.read(c.emit(s) + rest) == Parsed.Good(s, rest) {
        ManyReads(a, s, rest);
      }
      forall k: nat | k < |c.emit(s)| ensures c.read(c.emit(s)[..k]).Bad? {
        ManyRejectsCut(a, s, k);
      }
    }
  }

  // ---------------------------------------------------------------- the parts of a message

  function IntToNat(): int -> nat {
    (n: int) => if n >= 0 then 2 * n else -2 * n - 1
  }

  function NatToInt(): nat -> int {
    (n: nat) => if n % 2 == 0 then n / 2 else -(n + 1) / 2
  }

  function CharToNat(): char -> nat {
    (c: char) => c as nat
  }

  function NatToChar(): nat -> char {
    (n: nat) => if n < 0xD800 || 0xE000 <= n < 0x11_0000 then n as char else 'a'
  }

  function TypeToNat(): RecordType -> nat {
    (t: RecordType) => match t case A => 0 case AAAA => 1 case CNAME => 2 case SOA => 3 case OtherType(n) => n + 4
  }

  function NatToType(): nat -> RecordType {
    (n: nat) => if n == 0 then A else if n == 1 then AAAA else if n == 2 then CNAME else if n == 3 then SOA else OtherType(n - 4)
  }

  function CodeToNat(): Code -> nat {
    (c: Code) => match c case NoError => 0 case NXDomain => 1 case OtherCode(n) => n + 2
  }

  function NatToCode(): nat -> Code {
    (n: nat) => if n == 0 then NoError else if n == 1 then NXDomain else OtherCode(n - 2)
  }

  function DataToPair(): RData -> (nat, seq<int>) {
    (d: RData) => match d case SoaData(minimum) => (minimum + 1, []) case Opaque(octets) => (0, octets)
  }

  function PairToData(): ((nat, seq<int>)) -> RData {
    (p: (nat, seq<int>)) => if p.0 > 0 then SoaData(p.0 - 1) else Opaque(p.1)
  }

  type RecordParts = (string, (RecordType, (nat, RData)))

  function RecordToParts(): Record -> RecordParts {
    (r: Record) => (r.name, (r.rtype, (r.ttl, r.data)))
  }

  function PartsToRecord(): RecordParts -> Record {
    (p: RecordParts) => Record(p.0, p.1.0, p.1.1.0, p.1.1.1)
  }

  type ResponseParts = ((string, RecordType), ((Code, nat), (seq<Record>, (seq<Record>, seq<Record>))))

  function ResponseToParts(): Response -> ResponseParts {
    (r: Response) =>
      ((r.query.name, r.query.qtype), ((r.code, if r.truncated then 1 else 0), (r.answers, (r.authorities, r.additionals))))
  }

  function PartsToResponse(): ResponseParts -> Response {
    (p: ResponseParts) =>
      Response(Query(p.0.0, p.0.1), p.1.0.0, p.1.0.1 == 1, p.1.1.0, p.1.1.1.0, p.1.1.1.1)
  }

  function Texts(): Codec<string> {
    Many(Mapped(Count(), CharToNat(), NatToChar()))
  }

  function Types(): Codec<RecordType> {
    Mapped(Count(), TypeToNat(), NatToType())
  }

  function Datas(): Codec<RData> {
    Mapped(Pair(Count(), Many(Mapped(Count(), IntToNat(), NatToInt()))), DataToPair(), PairToData())
  }

  function Records(): Codec<Record> {
    Mapped(Pair(Texts(), Pair(Types(), Pair(Count(), Datas()))), RecordToParts(), PartsToRecord())
  }

  function Messages(): Codec<Response> {
    Mapped(Pair(Pair(Texts(), Types()),
                Pair(Pair(Mapped(Count(), CodeToNat(), NatToCode()), Count()),
                     Pair(Many(Records()), Pair(Many(Records()), Many(Records()))))),
           ResponseToParts(), PartsToResponse())
  }

  lemma TextsGood()
    ensures Good(Texts())
  {
    CountGood();
    MappedGood(Count(), CharToNat(), NatToChar());
    ManyGood(Mapped(Count(), CharToNat(), NatToChar()));
  }

  lemma TypesGood()
    ensures Good(Types())
  {
    CountGood();
    MappedGood(Count(), TypeToNat(), NatToType());
  }

  lemma DatasGood()
    ensures Good(Datas())
  {
    CountGood();
    var ints := Mapped(Count(), IntToNat(), NatToInt());
    MappedGood(Count(), IntToNat(), NatToInt());
    ManyGood(ints);
    PairGood(Count(), Many(ints));
    MappedGood(Pair(Count(), Many(ints)), DataToPair(), PairToData());
  }

  lemma RecordsGood()
    ensures Good(Records())
  {
    CountGood();
    TextsGood();
    TypesGood();
    DatasGood();
    PairGood(Count(), Datas());
    PairGood(Types(), Pair(Count(), Datas()));
    PairGood(Texts(), Pair(Types(), Pair(Count(), Datas())));
    MappedGood(Pair(Texts(), Pair(Types(), Pair(Count(), Datas()))), RecordToParts(), PartsToRecord());
  }

  lemma MessagesGood()
    ensures Good(Messages())
  {
    CountGood();
    TextsGood();
    TypesGood();
    RecordsGood();
    var codes := Mapped(Count(), CodeToNat(), NatToCode());
    MappedGood(Count(), CodeToNat(), NatToCode());
    ManyGood(Records());
    var sections := Pair(Many(Records()), Pair(Many(Records()), Many(Records())));
    PairGood(Many(Records()), Many(Records()));
    PairGood(Many(Records()), Pair(Many(Records()), Many(Records())));
    PairGood(codes, Count());
    PairGood(Pair(codes, Count()), sections);
    PairGood(Texts(), Types());
    PairGood(Pair(Texts(), Types()), Pair(Pair(codes, Count()), sections));
    MappedGood(Pair(Pair(Texts(), Types()), Pair(Pair(codes, Count()), sections)), ResponseToParts(), PartsToResponse());
  }

  // ---------------------------------------------------------------- all codecs together

  function WholeText(d: Bytes): Option<string> {
    match Texts().read(d)
    case Bad => None
    case Good(s, _) => Some(s)
  }

  function WholeOpts(d: Bytes): Option<nat> {
    match Count().read(d)
    case Bad => None
    case Good(o, _) => Some(o)
  }

  function Example(): Wire {
    Wire(Messages().emit, Messages().read, Texts().emit, (d: Bytes) => WholeText(d), Count().emit, (d: Bytes) => WholeOpts(d), 0)
  }

  /** One codec represents every entry whose texts and options have room behind two length
      bytes and whose popularity fits: the results about files are about something. */
  lemma ExampleRepresents(e: Entry)
    requires e.group.Some? ==> |Texts().emit(e.group.value)| < 0x1_0000
    requires e.ecs.Some? ==> |Texts().emit(e.ecs.value)| < 0x1_0000
    requires e.opts < 0xFFFF && e.hits < 0x1_0000_0000
    ensures Representable(Example(), e)
  {
    MessagesGood();
    ExampleTextOk(e.group);
    ExampleTextOk(e.ecs);
    CountReads(e.opts, []);
    assert EmitCount(e.opts) + [] == EmitCount(e.opts);
  }

  lemma ExampleTextOk(s: Option<string>)
    requires s.Some? ==> |Texts().emit(s.value)| < 0x1_0000
    ensures TextOk(Example(), s)
  {
    if s.Some? {
      TextsGood();
      var b := Texts().emit(s.value);
      assert Reads(Texts().read, b, s.value);
      assert b + [] == b;
    }
  }

  /** A cache with one entry. */
  function OneEntry(hash: Hasher, it: Item<CacheKey, Entry>): (s: Slots)
    ensures |s| == SHARD_COUNT && s[ShardOf(hash, it.key)] == [it]
    ensures forall i :: 0 <= i < SHARD_COUNT && i != ShardOf(hash, it.key) ==> s[i] == []
  {
    EmptySlots()[ShardOf(hash, it.key) := [it]]
  }

  /** The situation of the save-and-load theorems occurs around every saveable entry, for any
      hash, capacity and downtime. */
  lemma RestartOccurs(w: Wire, how: Load, it: Item<CacheKey, Entry>, t: int)
    requires Saveable(w, it) && how.cap >= 1 && t <= how.now && how.offline == how.now - t
    ensures Restart(w, how, OneEntry(how.hash, it), t)
    ensures Lookup(how.hash, OneEntry(how.hash, it), it.key) == Some(it.value)
  {
    var s := OneEntry(how.hash, it);
    forall i: nat | i < SHARD_COUNT ensures ShardOk(how.hash, how.cap, s[i], i) && AllSaveable(w, s[i]) {
      assert s[i] == [] || s[i] == [it];
    }
  }

  /** And saveable entries exist, with popularity, a group and a plain subnet field. */
  lemma SaveableOccurs(it: Item<CacheKey, Entry>)
    requires it.key == CacheKey(Query("a", A), "g", None, 0)
    requires it.value == Entry(Response(Query("a", A), NoError, false, [], [], []), Some("g"), 5, false, 2, None, 0)
    ensures Saveable(Example(), it) && PlainEcs(Example(), it.value)
  {
    GroupTextLength();
    ExampleRepresents(it.value);
  }

  lemma GroupTextLength()
    ensures |Texts().emit("g")| == 106
  {
    var c := Mapped(Count(), CharToNat(), NatToChar());
    assert "g"[1..] == "";
    assert EmitMany(c, "g") == [1] + (EmitCount('g' as nat) + [0]);
  }
}
