/** The on-disk form of cache entries (src/dns_mw_cache.rs): entries back to back, each a row
    of tagged fields without a length of its own, and a reader that keeps whatever comes
    before the first damaged entry.

    The DNS message codec, UTF-8 and the JSON form of the listener options are library code;
    they enter as arbitrary functions, assumed faithful only on what an entry holds. */
module CacheFile {
  import opened Dns
  import opened Cache

  type byte = x: int | 0 <= x < 256
  type Bytes = seq<byte>

  // ---------------------------------------------------------------- reading in general

  /** The result of reading one item from the front of some bytes. */
  datatype Parsed<+T> = Bad | Good(value: T, rest: Bytes)

  type Reader<T> = Bytes -> Parsed<T>

  /** One item after the other. */
  function Then<A, B>(p: Reader<A>, q: Reader<B>): Reader<(A, B)> {
    (d: Bytes) =>
      match p(d)
      case Bad => Bad
      case Good(a, d1) =>
        match q(d1)
        case Bad => Bad
        case Good(b, d2) => Good((a, b), d2)
  }

  /** An item behind its tag byte. */
  function Tagged<A>(tag: byte, p: Reader<A>): Reader<A> {
    (d: Bytes) => if d == [] || d[0] != tag then Bad else p(d[1..])
  }

  /** The reader turns these bytes into this value, whatever follows. */
  ghost predicate Reads<A(!new)>(p: Reader<A>, x: Bytes, a: A) {
    forall rest :: p(x + rest) == Good(a, rest)
  }

  /** The reader rejects these bytes when any of them is missing at the end. */
  ghost predicate RejectsCut<A>(p: Reader<A>, x: Bytes) {
    forall n: nat :: n < |x| ==> p(x[..n]).Bad?
  }

  lemma ThenReads<A(!new), B(!new)>(p: Reader<A>, x: Bytes, a: A, q: Reader<B>, y: Bytes, b: B)
    requires Reads(p, x, a) && Reads(q, y, b)
    ensures Reads(Then(p, q), x + y, (a, b))
  {
    forall rest ensures Then(p, q)(x + y + rest) == Good((a, b), rest) {
      assert x + y + rest == x + (y + rest);
      assert p(x + (y + rest)) == Good(a, y + rest);
      assert q(y + rest) == Good(b, rest);
    }
  }

  lemma ThenRejectsCut<A(!new), B(!new)>(p: Reader<A>, x: Bytes, a: A, q: Reader<B>, y: Bytes)
    requires Reads(p, x, a) && RejectsCut(p, x) && RejectsCut(q, y)
    ensures RejectsCut(Then(p, q), x + y)
  {
    forall n: nat | n < |x + y| ensures Then(p, q)((x + y)[..n]).Bad? {
      if n < |x| {
        assert (x + y)[..n] == x[..n];
      } else {
        assert (x + y)[..n] == x + y[..n - |x|];
        assert p(x + y[..n - |x|]) == Good(a, y[..n - |x|]);
        assert q(y[..n - |x|]).Bad?;
      }
    }
  }

  lemma ThenLaws<A(!new), B(!new)>(p: Reader<A>, x: Bytes, a: A, q: Reader<B>, y: Bytes, b: B)
    requires Reads(p, x, a) && RejectsCut(p, x) && Reads(q, y, b) && RejectsCut(q, y)
    ensures Reads(Then(p, q), x + y, (a, b)) && RejectsCut(Then(p, q), x + y)
  {
    ThenReads(p, x, a, q, y, b);
    ThenRejectsCut(p, x, a, q, y);
  }

  lemma TaggedReads<A(!new)>(tag: byte, p: Reader<A>, x: Bytes, a: A)
    requires Reads(p, x, a)
    ensures Reads(Tagged(tag, p), [tag] + x, a)
  {
    forall rest ensures Tagged(tag, p)([tag] + x + rest) == Good(a, rest) {
      assert ([tag] + x + rest)[1..] == x + rest;
      assert p(x + rest) == Good(a, rest);
    }
  }

  lemma TaggedRejectsCut<A>(tag: byte, p: Reader<A>, x: Bytes)
    requires RejectsCut(p, x)
    ensures RejectsCut(Tagged(tag, p), [tag] + x)
  {
    forall n: nat | n < |[tag] + x| ensures Tagged(tag, p)(([tag] + x)[..n]).Bad? {
      if n > 0 {
        assert ([tag] + x)[..n] == [tag] + x[..n - 1];
      }
    }
  }

  lemma TaggedLaws<A(!new)>(tag: byte, p: Reader<A>, x: Bytes, a: A)
    requires Reads(p, x, a) && RejectsCut(p, x)
    ensures Reads(Tagged(tag, p), [tag] + x, a) && RejectsCut(Tagged(tag, p), [tag] + x)
  {
    TaggedReads(tag, p, x, a);
    TaggedRejectsCut(tag, p, x);
  }

  // ---------------------------------------------------------------- numbers and text

  function U16(n: nat): (b: Bytes)
    requires n < 0x1_0000
    ensures |b| == 2 && b[0] as int * 256 + b[1] as int == n
  {
    [n / 256, n % 256]
  }

  function U32(n: nat): (b: Bytes)
    requires n < 0x1_0000_0000
    ensures |b| == 4
    ensures ((b[0] as int * 256 + b[1] as int) * 256 + b[2] as int) * 256 + b[3] as int == n
  {
    U16(n / 0x1_0000) + U16(n % 0x1_0000)
  }

  function ReadU16(): Reader<nat> {
    (d: Bytes) => if |d| < 2 then Bad else Good(d[0] as int * 256 + d[1] as int, d[2..])
  }

  function ReadU32(): Reader<nat> {
    (d: Bytes) =>
      match Then(ReadU16(), ReadU16())(d)
      case Bad => Bad
      case Good((hi, lo), rest) => Good(hi * 0x1_0000 + lo, rest)
  }

  lemma U16Laws(n: nat)
    requires n < 0x1_0000
    ensures Reads(ReadU16(), U16(n), n) && RejectsCut(ReadU16(), U16(n))
  {
    forall rest ensures ReadU16()(U16(n) + rest) == Good(n, rest) {
      assert (U16(n) + rest)[2..] == rest;
    }
  }

  lemma U32Laws(n: nat)
    requires n < 0x1_0000_0000
    ensures Reads(ReadU32(), U32(n), n) && RejectsCut(ReadU32(), U32(n))
  {
    var hi, lo := n / 0x1_0000, n % 0x1_0000;
    U16Laws(hi);
    U16Laws(lo);
    ThenLaws(ReadU16(), U16(hi), hi, ReadU16(), U16(lo), lo);
    forall rest ensures ReadU32()(U32(n) + rest) == Good(n, rest) {
      assert Then(ReadU16(), ReadU16())(U32(n) + rest) == Good((hi, lo), rest);
    }
    forall k: nat | k < 4 ensures ReadU32()(U32(n)[..k]).Bad? {
      assert Then(ReadU16(), ReadU16())(U32(n)[..k]).Bad?;
    }
  }

  /** Bytes behind their length. */
  function ReadField(): Reader<Bytes> {
    (d: Bytes) =>
      match ReadU16()(d)
      case Bad => Bad
      case Good(len, d1) => if len > |d1| then Bad else Good(d1[..len], d1[len..])
  }

  function Field(b: Bytes): Bytes {
    U16(|b| % 0x1_0000) + b
  }

  /** A length and the first bytes of what follows it. */
  lemma FieldFront(b: Bytes, d: Bytes)
    requires |b| < 0x1_0000
    ensures ReadU16()(U16(|b|) + d) == Good(|b|, d)
  {
    U16Laws(|b|);
  }

  lemma FieldLaws(b: Bytes)
    requires |b| < 0x1_0000
    ensures Reads(ReadField(), Field(b), b) && RejectsCut(ReadField(), Field(b))
  {
    var f, len := Field(b), U16(|b|);
    forall rest ensures ReadField()(f + rest) == Good(b, rest) {
      assert f + rest == len + (b + rest);
      FieldFront(b, b + rest);
      assert (b + rest)[..|b|] == b && (b + rest)[|b|..] == rest;
    }
    forall n: nat | n < |f| ensures ReadField()(f[..n]).Bad? {
      if n >= 2 {
        assert f[..n] == len + b[..n - 2];
        FieldFront(b, b[..n - 2]);
      } else {
        assert ReadU16()(f[..n]).Bad?;
      }
    }
  }

  // ---------------------------------------------------------------- the library codecs

  datatype Wire = Wire(
    emitMessage: Response -> Bytes,
    readMessage: Reader<Response>,
    emitText: string -> Bytes,
    readText: Bytes -> Option<string>,
    emitOpts: nat -> Bytes,
    readOpts: Bytes -> Option<nat>,
    defaultOpts: nat)

  /** The codec brings this message back from any surrounding and rejects it when cut short. */
  ghost predicate MessageOk(w: Wire, m: Response) {
    Reads(w.readMessage, w.emitMessage(m), m) && RejectsCut(w.readMessage, w.emitMessage(m))
  }

  /** The text comes back and fits behind a length of two bytes; no bytes would mean no text. */
  ghost predicate TextOk(w: Wire, s: Option<string>) {
    s.Some? ==> 0 < |w.emitText(s.value)| < 0x1_0000 && w.readText(w.emitText(s.value)) == s
  }

  ghost predicate OptsOk(w: Wire, o: nat) {
    |w.emitOpts(o)| < 0x1_0000 && w.readOpts(w.emitOpts(o)) == Some(o)
  }

  // ---------------------------------------------------------------- the fields of an entry

  /** Whole seconds between two instants, cut to 32 bits. */
  function WholeSeconds(d: int): (s: nat)
    requires d >= 0
    ensures s < 0x1_0000_0000
  {
    (d / SECOND) % 0x1_0000_0000
  }

  function MessagePart(w: Wire, e: Entry): Bytes {
    [1] + w.emitMessage(e.data)
  }

  /** Seconds left, or seconds since death. */
  function DeadlinePart(e: Entry, now: int): Bytes {
    if e.validUntil > now then [2] + U32(WholeSeconds(e.validUntil - now))
    else [5] + U32(WholeSeconds(now - e.validUntil))
  }

  function TextBytes(w: Wire, s: Option<string>): Bytes {
    if s.Some? then w.emitText(s.value) else []
  }

  function GroupPart(w: Wire, e: Entry): Bytes {
    [3] + Field(TextBytes(w, e.group))
  }

  function HitsPart(e: Entry): Bytes {
    [4] + U32(e.hits % 0x1_0000_0000)
  }

  function EcsPart(w: Wire, e: Entry): Bytes {
    [6] + Field(TextBytes(w, e.ecs))
  }

  function OptsPart(w: Wire, e: Entry): Bytes {
    [7] + Field(w.emitOpts(e.opts))
  }

  /** The part every version of the format has. */
  function HeadPart(w: Wire, e: Entry, now: int): Bytes {
    MessagePart(w, e) + (DeadlinePart(e, now) + (GroupPart(w, e) + HitsPart(e)))
  }

  function Emit(w: Wire, e: Entry, now: int): Bytes {
    HeadPart(w, e, now) + (EcsPart(w, e) + OptsPart(w, e))
  }

  // ---------------------------------------------------------------- reading an entry

  /** Times read from a file are held to the limit the writer keeps. */
  function Clamp(secs: nat): nat {
    Min(secs, MAX_TTL)
  }

  function ReadDeadline(now: int): Reader<int> {
    (d: Bytes) =>
      if d == [] || (d[0] != 2 && d[0] != 5) then Bad
      else
        match ReadU32()(d[1..])
        case Bad => Bad
        case Good(secs, rest) =>
          Good(if d[0] == 2 then now + Clamp(secs) * SECOND else now - Clamp(secs) * SECOND, rest)
  }

  /** Text behind its length; no bytes means no text. */
  function ReadTextField(w: Wire): Reader<Option<string>> {
    (d: Bytes) =>
      match ReadField()(d)
      case Bad => Bad
      case Good(b, rest) => Good(if b == [] then None else w.readText(b), rest)
  }

  /** Client subnet: absent or damaged data reads as no subnet.  A byte that is not the tag is
      still consumed; a length without its data is consumed alone. */
  function ReadEcs(w: Wire, d: Bytes): (Option<string>, Bytes) {
    if d == [] then (None, d)
    else if d[0] != 6 then (None, d[1..])
    else
      match ReadU16()(d[1..])
      case Bad => (None, d[1..])
      case Good(len, rest) =>
        if len == 0 || len > |rest| then (None, rest) else (w.readText(rest[..len]), rest[len..])
  }

  /** Listener options: only the tag byte itself says whether they are there. */
  function ReadOpts(w: Wire, d: Bytes): Parsed<nat> {
    if d == [] || d[0] != 7 then Good(w.defaultOpts, d)
    else
      match ReadField()(d[1..])
      case Bad => Bad
      case Good(b, rest) =>
        match w.readOpts(b)
        case Some(o) => Good(o, rest)
        case None => Bad
  }

  type Head = (Response, (int, (Option<string>, nat)))

  function ReadHead(w: Wire, now: int): Reader<Head> {
    Then(Tagged(1, w.readMessage), Then(ReadDeadline(now), Then(Tagged(3, ReadTextField(w)), Tagged(4, ReadU32()))))
  }

  function ReadTail(w: Wire, head: Head, d: Bytes): Parsed<Entry> {
    var (ecs, d) := ReadEcs(w, d);
    match ReadOpts(w, d)
    case Bad => Bad
    case Good(opts, rest) => Good(Entry(head.0, head.1.1.0, head.1.0, false, head.1.1.1, ecs, opts), rest)
  }

  function ReadEntry(w: Wire, now: int): Reader<Entry> {
    (d: Bytes) =>
      match ReadHead(w, now)(d)
      case Bad => Bad
      case Good(head, rest) => ReadTail(w, head, rest)
  }

  // ---------------------------------------------------------------- one entry comes back

  /** Entries the format can represent: the codecs bring back what this entry holds, and its
      popularity fits.  Nothing is assumed of the codecs on other values. */
  ghost predicate Representable(w: Wire, e: Entry) {
    MessageOk(w, e.data) && TextOk(w, e.group) && TextOk(w, e.ecs) && OptsOk(w, e.opts) && e.hits < 0x1_0000_0000
  }

  /** A deadline written at instant `t` and read at instant `now`. */
  function Reread(deadline: int, t: int, now: int): int {
    if deadline > t then now + Clamp(WholeSeconds(deadline - t)) * SECOND
    else now - Clamp(WholeSeconds(t - deadline)) * SECOND
  }

  function Reloaded(e: Entry, t: int, now: int): Entry {
    e.(validUntil := Reread(e.validUntil, t, now), prefetching := false)
  }

  function HeadOf(e: Entry, t: int, now: int): Head {
    (e.data, (Reread(e.validUntil, t, now), (e.group, e.hits)))
  }

  lemma DeadlineLaws(e: Entry, t: int, now: int)
    ensures Reads(ReadDeadline(now), DeadlinePart(e, t), Reread(e.validUntil, t, now))
    ensures RejectsCut(ReadDeadline(now), DeadlinePart(e, t))
  {
    var x := DeadlinePart(e, t);
    var secs := if e.validUntil > t then WholeSeconds(e.validUntil - t) else WholeSeconds(t - e.validUntil);
    U32Laws(secs);
    forall rest ensures ReadDeadline(now)(x + rest) == Good(Reread(e.validUntil, t, now), rest) {
      assert (x + rest)[1..] == U32(secs) + rest;
      assert ReadU32()(U32(secs) + rest) == Good(secs, rest);
    }
    forall n: nat | n < |x| ensures ReadDeadline(now)(x[..n]).Bad? {
      if n > 0 {
        assert x[..n][1..] == U32(secs)[..n - 1];
      }
    }
  }

  lemma TextFieldLaws(w: Wire, s: Option<string>)
    requires TextOk(w, s)
    ensures Reads(ReadTextField(w), Field(TextBytes(w, s)), s)
    ensures RejectsCut(ReadTextField(w), Field(TextBytes(w, s)))
  {
    FieldLaws(TextBytes(w, s));
  }

  lemma MessageLaws(w: Wire, e: Entry)
    requires MessageOk(w, e.data)
    ensures Reads(Tagged(1, w.readMessage), MessagePart(w, e), e.data)
    ensures RejectsCut(Tagged(1, w.readMessage), MessagePart(w, e))
  {
    TaggedLaws(1, w.readMessage, w.emitMessage(e.data), e.data);
  }

  lemma GroupLaws(w: Wire, e: Entry)
    requires TextOk(w, e.group)
    ensures Reads(Tagged(3, ReadTextField(w)), GroupPart(w, e), e.group)
    ensures RejectsCut(Tagged(3, ReadTextField(w)), GroupPart(w, e))
  {
    TextFieldLaws(w, e.group);
    TaggedLaws(3, ReadTextField(w), Field(TextBytes(w, e.group)), e.group);
  }

  lemma HitsLaws(e: Entry)
    requires e.hits < 0x1_0000_0000
    ensures Reads(Tagged(4, ReadU32()), HitsPart(e), e.hits)
    ensures RejectsCut(Tagged(4, ReadU32()), HitsPart(e))
  {
    U32Laws(e.hits);
    TaggedLaws(4, ReadU32(), U32(e.hits), e.hits);
  }

  /** Four items in a row. */
  lemma RowLaws<A(!new), B(!new), C(!new), D(!new)>(
    p: Reader<A>, x: Bytes, a: A, q: Reader<B>, y: Bytes, b: B,
    r: Reader<C>, z: Bytes, c: C, s: Reader<D>, u: Bytes, d: D)
    requires Reads(p, x, a) && RejectsCut(p, x) && Reads(q, y, b) && RejectsCut(q, y)
    requires Reads(r, z, c) && RejectsCut(r, z) && Reads(s, u, d) && RejectsCut(s, u)
    ensures Reads(Then(p, Then(q, Then(r, s))), x + (y + (z + u)), (a, (b, (c, d))))
    ensures RejectsCut(Then(p, Then(q, Then(r, s))), x + (y + (z + u)))
  {
    ThenLaws(r, z, c, s, u, d);
    ThenLaws(q, y, b, Then(r, s), z + u, (c, d));
    ThenLaws(p, x, a, Then(q, Then(r, s)), y + (z + u), (b, (c, d)));
  }

  lemma HeadLaws(w: Wire, e: Entry, t: int, now: int)
    requires Representable(w, e)
    ensures Reads(ReadHead(w, now), HeadPart(w, e, t), HeadOf(e, t, now))
    ensures RejectsCut(ReadHead(w, now), HeadPart(w, e, t))
  {
    MessageLaws(w, e);
    DeadlineLaws(e, t, now);
    GroupLaws(w, e);
    HitsLaws(e);
    RowLaws(Tagged(1, w.readMessage), MessagePart(w, e), e.data, ReadDeadline(now), DeadlinePart(e, t), Reread(e.validUntil, t, now),
            Tagged(3, ReadTextField(w)), GroupPart(w, e), e.group, Tagged(4, ReadU32()), HitsPart(e), e.hits);
  }

  lemma EcsReads(w: Wire, e: Entry, rest: Bytes)
    requires TextOk(w, e.ecs)
    ensures ReadEcs(w, EcsPart(w, e) + rest) == (e.ecs, rest)
  {
    hide U16;
    var b := TextBytes(w, e.ecs);
    var d := EcsPart(w, e) + rest;
    U16Laws(|b|);
    EcsTail(w, e, rest);
    FieldFront(b, b + rest);
    assert (b + rest)[..|b|] == b && (b + rest)[|b|..] == rest;
  }

  lemma EcsTail(w: Wire, e: Entry, rest: Bytes)
    requires |TextBytes(w, e.ecs)| < 0x1_0000
    ensures EcsPart(w, e) + rest == [6] + (U16(|TextBytes(w, e.ecs)|) + (TextBytes(w, e.ecs) + rest))
  {
    EcsPartIs(w, e);
    hide *;
    Regroup([6], U16(|TextBytes(w, e.ecs)|), TextBytes(w, e.ecs), rest);
  }

  lemma EcsPartIs(w: Wire, e: Entry)
    requires |TextBytes(w, e.ecs)| < 0x1_0000
    ensures EcsPart(w, e) == [6] + (U16(|TextBytes(w, e.ecs)|) + TextBytes(w, e.ecs))
  {
  }

  lemma OptsReads(w: Wire, e: Entry, rest: Bytes)
    requires OptsOk(w, e.opts)
    ensures ReadOpts(w, OptsPart(w, e) + rest) == Good(e.opts, rest)
  {
    var f := Field(w.emitOpts(e.opts));
    FieldLaws(w.emitOpts(e.opts));
    assert (OptsPart(w, e) + rest)[1..] == f + rest;
    assert ReadField()(f + rest) == Good(w.emitOpts(e.opts), rest);
  }

  /** An entry whose head is complete is decided by what follows the head. */
  lemma EntryFrom(w: Wire, e: Entry, t: int, now: int, rest: Bytes)
    requires Representable(w, e)
    ensures ReadEntry(w, now)(HeadPart(w, e, t) + rest) == ReadTail(w, HeadOf(e, t, now), rest)
  {
    HeadLaws(w, e, t, now);
    assert ReadHead(w, now)(HeadPart(w, e, t) + rest) == Good(HeadOf(e, t, now), rest);
  }

  lemma TailReads(w: Wire, e: Entry, head: Head, rest: Bytes)
    requires TextOk(w, e.ecs) && OptsOk(w, e.opts)
    ensures ReadTail(w, head, EcsPart(w, e) + (OptsPart(w, e) + rest)) ==
            Good(Entry(head.0, head.1.1.0, head.1.0, false, head.1.1.1, e.ecs, e.opts), rest)
  {
    EcsReads(w, e, OptsPart(w, e) + rest);
    OptsReads(w, e, rest);
  }

  lemma Regroup(x: Bytes, y: Bytes, z: Bytes, rest: Bytes)
    ensures x + (y + z) + rest == x + (y + (z + rest))
  {
  }

  /** An entry written at `t` and read at `now` comes back with its message, group, subnet,
      options and popularity, and the reader stops exactly behind it. */
  lemma EntryRoundTrip(w: Wire, e: Entry, t: int, now: int)
    requires Representable(w, e)
    ensures Reads(ReadEntry(w, now), Emit(w, e, t), Reloaded(e, t, now))
  {
    forall rest ensures ReadEntry(w, now)(Emit(w, e, t) + rest) == Good(Reloaded(e, t, now), rest) {
      Regroup(HeadPart(w, e, t), EcsPart(w, e), OptsPart(w, e), rest);
      EntryFrom(w, e, t, now, EcsPart(w, e) + (OptsPart(w, e) + rest));
      TailReads(w, e, HeadOf(e, t, now), rest);
    }
  }

  // ---------------------------------------------------------------- salvage

  /** Best-effort reading with any reader: stop at the first entry that does not parse, or
      that consumes nothing. */
  function Salvage<E>(read: Reader<E>, d: Bytes): (seq<E>, bool)
    decreases |d|
  {
    if d == [] then ([], true)
    else
      match read(d)
      case Bad => ([], false)
      case Good(e, rest) =>
        if |rest| >= |d| then ([], false)
        else
          var (es, clean) := Salvage(read, d[|d| - |rest|..]);
          ([e] + es, clean)
  }

  /** The reading loop, for every byte string and every reader. */
  method DeserializeBestEffort<E>(read: Reader<E>, data: Bytes) returns (entries: seq<E>, clean: bool)
    ensures (entries, clean) == Salvage(read, data)
  {
    entries := [];
    var offset := 0;
    assert data[offset..] == data;
    assert entries + Salvage(read, data).0 == Salvage(read, data).0;
    while offset < |data|
      invariant offset <= |data|
      invariant Salvage(read, data) == (entries + Salvage(read, data[offset..]).0, Salvage(read, data[offset..]).1)
    {
      var d := data[offset..];
      var parsed := read(d);
      match parsed {
        case Bad =>
          assert entries + [] == entries;
          return entries, false;
        case Good(e, rest) =>
          var consumed := |d| - |rest|;
          if consumed <= 0 {
            assert entries + [] == entries;
            return entries, false;
          }
          assert d[consumed..] == data[offset + consumed..];
          var es := Salvage(read, d[consumed..]).0;
          assert entries + ([e] + es) == entries + [e] + es;
          entries := entries + [e];
          offset := offset + consumed;
      }
    }
    assert data[offset..] == [];
    assert entries + [] == entries;
    return entries, true;
  }

  function ChunkBytes(chunks: seq<Bytes>): Bytes {
    if chunks == [] then [] else chunks[0] + ChunkBytes(chunks[1..])
  }

  /** How many leading chunks lie wholly within the first `n` bytes. */
  function WholeWithin(chunks: seq<Bytes>, n: nat): (k: nat)
    ensures k <= |chunks|
    ensures k == |chunks| <==> |ChunkBytes(chunks)| <= n
  {
    if chunks == [] || |chunks[0]| > n then 0 else 1 + WholeWithin(chunks[1..], n - |chunks[0]|)
  }

  /** The reader turns each chunk into its value. */
  ghost predicate ReadsAll<E(!new)>(read: Reader<E>, chunks: seq<Bytes>, values: seq<E>) {
    |chunks| == |values|
    && forall i :: 0 <= i < |chunks| ==> chunks[i] != [] && Reads(read, chunks[i], values[i])
  }

  lemma SalvageStep<E(!new)>(read: Reader<E>, x: Bytes, a: E, rest: Bytes)
    requires x != [] && Reads(read, x, a)
    ensures Salvage(read, x + rest) == ([a] + Salvage(read, rest).0, Salvage(read, rest).1)
  {
    var d := x + rest;
    assert read(d) == Good(a, rest);
    assert d[|d| - |rest|..] == rest;
  }

  /** Salvage of chunks cut at any byte returns at least the chunks before the cut. */
  lemma {:induction false} SalvageChunks<E(!new)>(read: Reader<E>, chunks: seq<Bytes>, values: seq<E>, n: nat)
    requires ReadsAll(read, chunks, values) && n <= |ChunkBytes(chunks)|
    ensures values[..WholeWithin(chunks, n)] <= Salvage(read, ChunkBytes(chunks)[..n]).0
  {
    if chunks != [] && |chunks[0]| <= n {
      var n' := n - |chunks[0]|;
      var k := WholeWithin(chunks[1..], n');
      var rest := ChunkBytes(chunks[1..])[..n'];
      assert ChunkBytes(chunks)[..n] == chunks[0] + rest;
      SalvageChunks(read, chunks[1..], values[1..], n');
      SalvageStep(read, chunks[0], values[0], rest);
      assert values[..1 + k] == [values[0]] + values[1..][..k];
    }
  }

  /** An uncut file is read completely and without complaint. */
  lemma {:induction false} SalvageWhole<E(!new)>(read: Reader<E>, chunks: seq<Bytes>, values: seq<E>)
    requires ReadsAll(read, chunks, values)
    ensures Salvage(read, ChunkBytes(chunks)) == (values, true)
  {
    if chunks != [] {
      SalvageWhole(read, chunks[1..], values[1..]);
      SalvageStep(read, chunks[0], values[0], ChunkBytes(chunks[1..]));
      assert values == [values[0]] + values[1..];
    }
  }

  function MapSeq<X, Y>(f: X -> Y, s: seq<X>): (t: seq<Y>)
    ensures |t| == |s| && forall i :: 0 <= i < |s| ==> t[i] == f(s[i])
  {
    seq(|s|, i requires 0 <= i < |s| => f(s[i]))
  }

  function Emitter(w: Wire, t: int): Entry -> Bytes {
    (e: Entry) => Emit(w, e, t)
  }

  function Chunks(w: Wire, es: seq<Entry>, t: int): seq<Bytes> {
    MapSeq(Emitter(w, t), es)
  }

  /** The payload of a file: entries back to back. */
  function EmitAll(w: Wire, es: seq<Entry>, t: int): Bytes {
    ChunkBytes(Chunks(w, es, t))
  }

  function ReloadedAll(es: seq<Entry>, t: int, now: int): (out: seq<Entry>)
    ensures |out| == |es| && forall i :: 0 <= i < |es| ==> out[i] == Reloaded(es[i], t, now)
  {
    MapSeq((e: Entry) => Reloaded(e, t, now), es)
  }

  ghost predicate AllRepresentable(w: Wire, es: seq<Entry>) {
    forall i :: 0 <= i < |es| ==> Representable(w, es[i])
  }

  lemma ReadsEntries(w: Wire, es: seq<Entry>, t: int, now: int)
    requires AllRepresentable(w, es)
    ensures ReadsAll(ReadEntry(w, now), Chunks(w, es, t), ReloadedAll(es, t, now))
  {
    forall i | 0 <= i < |es|
      ensures Emit(w, es[i], t) != [] && Reads(ReadEntry(w, now), Emit(w, es[i], t), Reloaded(es[i], t, now))
    {
      EntryRoundTrip(w, es[i], t, now);
    }
  }

  /** Cut a file of entries anywhere: every entry that lies wholly before the cut comes back
      unchanged, in order, at the front of what is salvaged; an undamaged file comes back
      completely and without complaint. */
  lemma SalvageKeepsWholeEntries(w: Wire, es: seq<Entry>, t: int, now: int, n: nat)
    requires AllRepresentable(w, es) && n <= |EmitAll(w, es, t)|
    ensures ReloadedAll(es, t, now)[..WholeWithin(Chunks(w, es, t), n)] <= Salvage(ReadEntry(w, now), EmitAll(w, es, t)[..n]).0
    ensures Salvage(ReadEntry(w, now), EmitAll(w, es, t)) == (ReloadedAll(es, t, now), true)
  {
    ReadsEntries(w, es, t, now);
    SalvageChunks(ReadEntry(w, now), Chunks(w, es, t), ReloadedAll(es, t, now), n);
    SalvageWhole(ReadEntry(w, now), Chunks(w, es, t), ReloadedAll(es, t, now));
  }

  lemma {:induction false} SalvageStops<E(!new)>(read: Reader<E>, chunks: seq<Bytes>, values: seq<E>, junk: Bytes)
    requires ReadsAll(read, chunks, values) && junk != [] && read(junk).Bad?
    ensures Salvage(read, ChunkBytes(chunks) + junk) == (values, false)
  {
    if chunks == [] {
      assert ChunkBytes(chunks) + junk == junk;
    } else {
      SalvageStops(read, chunks[1..], values[1..], junk);
      assert ChunkBytes(chunks) + junk == chunks[0] + (ChunkBytes(chunks[1..]) + junk);
      hide Salvage;
      SalvageStep(read, chunks[0], values[0], ChunkBytes(chunks[1..]) + junk);
      assert values == [values[0]] + values[1..];
    }
  }

  /** Damage ends the reading: what stands before it comes back, in order, nothing behind it
      does, whatever it holds, and the damage is reported. */
  lemma DamageEndsReading(w: Wire, es: seq<Entry>, t: int, now: int, junk: Bytes)
    requires AllRepresentable(w, es) && junk != [] && ReadEntry(w, now)(junk).Bad?
    ensures Salvage(ReadEntry(w, now), EmitAll(w, es, t) + junk) == (ReloadedAll(es, t, now), false)
  {
    ReadsEntries(w, es, t, now);
    SalvageStops(ReadEntry(w, now), Chunks(w, es, t), ReloadedAll(es, t, now), junk);
  }

  // ---------------------------------------------------------------- the entry at the cut

  /** A subnet in its textual form is short and does not start with a control character. */
  ghost predicate PlainEcs(w: Wire, e: Entry) {
    e.ecs.Some? ==> 0 < |w.emitText(e.ecs.value)| < 0x700 && w.emitText(e.ecs.value)[0] != 7
  }

  lemma EcsCut(w: Wire, e: Entry, q: nat)
    requires PlainEcs(w, e) && q < |EcsPart(w, e)|
    ensures var r := ReadEcs(w, EcsPart(w, e)[..q]); r.0 == None && (r.1 == [] || r.1[0] != 7)
  {
    var b := TextBytes(w, e.ecs);
    var d := EcsPart(w, e)[..q];
    U16Laws(|b|);
    if q == 2 {
      assert d[1..] == [|b| / 256];
    } else if q >= 3 {
      assert d[1..] == U16(|b|) + b[..q - 3];
      FieldFront(b, b[..q - 3]);
    }
  }

  lemma OptsCut(w: Wire, e: Entry, q: nat)
    requires OptsOk(w, e.opts) && 0 < q < |OptsPart(w, e)|
    ensures ReadOpts(w, OptsPart(w, e)[..q]).Bad?
  {
    var f := Field(w.emitOpts(e.opts));
    FieldLaws(w.emitOpts(e.opts));
    assert OptsPart(w, e)[..q][1..] == f[..q - 1];
  }

  /** What is read from an entry cut in its tail. */
  lemma TailCut(w: Wire, e: Entry, head: Head, q: nat)
    requires TextOk(w, e.ecs) && OptsOk(w, e.opts) && PlainEcs(w, e)
    requires q < |EcsPart(w, e) + OptsPart(w, e)|
    ensures var r := ReadTail(w, head, (EcsPart(w, e) + OptsPart(w, e))[..q]);
            && (r.Good? <==> q <= |EcsPart(w, e)|)
            && (r.Good? ==> r.value == Entry(head.0, head.1.1.0, head.1.0, false, head.1.1.1,
                                             if q == |EcsPart(w, e)| then e.ecs else None, w.defaultOpts))
  {
    var ecs, opts := EcsPart(w, e), OptsPart(w, e);
    var d := (ecs + opts)[..q];
    if q < |ecs| {
      assert d == ecs[..q];
      EcsCut(w, e, q);
    } else {
      var rest := opts[..q - |ecs|];
      assert d == ecs + rest;
      EcsReads(w, e, rest);
      if q > |ecs| {
        OptsCut(w, e, q - |ecs|);
      }
    }
  }

  lemma CutInHead(w: Wire, e: Entry, t: int, now: int, p: nat)
    requires Representable(w, e) && p < |HeadPart(w, e, t)|
    ensures ReadEntry(w, now)(Emit(w, e, t)[..p]).Bad?
  {
    HeadLaws(w, e, t, now);
    var head := HeadPart(w, e, t);
    assert Emit(w, e, t)[..p] == head[..p];
    assert ReadHead(w, now)(head[..p]).Bad?;
  }

  lemma CutInTail(w: Wire, e: Entry, t: int, now: int, q: nat)
    requires Representable(w, e) && q < |EcsPart(w, e) + OptsPart(w, e)|
    ensures ReadEntry(w, now)(Emit(w, e, t)[..|HeadPart(w, e, t)| + q]) ==
            ReadTail(w, HeadOf(e, t, now), (EcsPart(w, e) + OptsPart(w, e))[..q])
  {
    var head, tail := HeadPart(w, e, t), EcsPart(w, e) + OptsPart(w, e);
    assert Emit(w, e, t) == head + tail;
    hide *;
    CutBehind(head, tail, q);
    EntryFrom(w, e, t, now, tail[..q]);
  }

  lemma CutBehind(head: Bytes, tail: Bytes, q: nat)
    requires q <= |tail|
    ensures (head + tail)[..|head| + q] == head + tail[..q]
  {
  }

  lemma CutInTailAccepted(w: Wire, e: Entry, t: int, now: int, q: nat)
    requires Representable(w, e) && PlainEcs(w, e) && q < |EcsPart(w, e) + OptsPart(w, e)|
    ensures var r := ReadEntry(w, now)(Emit(w, e, t)[..|HeadPart(w, e, t)| + q]);
            && (r.Good? <==> q <= |EcsPart(w, e)|)
            && (r.Good? ==> r.value == Reloaded(e, t, now).(ecs := if q == |EcsPart(w, e)| then e.ecs else None,
                            opts := w.defaultOpts))
  {
    CutInTail(w, e, t, now, q);
    TailCut(w, e, HeadOf(e, t, now), q);
  }

  /** "A damaged entry is not taken for a whole one" fails in one window: an entry cut anywhere
      from the end of its popularity field to the end of its subnet field is accepted, with
      default options and, unless the subnet field is complete, without its subnet.  Cut
      anywhere else it is rejected. */
  lemma CutEntryAcceptedExactly(w: Wire, e: Entry, t: int, now: int, p: nat)
    requires Representable(w, e) && PlainEcs(w, e) && p < |Emit(w, e, t)|
    ensures var r := ReadEntry(w, now)(Emit(w, e, t)[..p]);
            var head, ecs := |HeadPart(w, e, t)|, |EcsPart(w, e)|;
            && (r.Good? <==> head <= p <= head + ecs)
            && (r.Good? ==> r.value == Reloaded(e, t, now).(ecs := if p == head + ecs then e.ecs else None,
                            opts := w.defaultOpts))
  {
    var head := |HeadPart(w, e, t)|;
    if p < head {
      CutInHead(w, e, t, now, p);
    } else {
      CutInTailAccepted(w, e, t, now, p - head);
    }
  }
}
