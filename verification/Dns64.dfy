/** DNS64 synthesis (src/dns_mw_dns64.rs): embedding an IPv4 address in the sixteen octets of
    the configured network, and rewriting an A reply into an AAAA reply.  The reference is the
    layout of section 2.2 of RFC 6052. */
module Dns64 {
  import opened Dns

  type octet = x: int | 0 <= x < 256
  type Octets = seq<octet>

  predicate Supported(prefix: nat) {
    prefix in {32, 40, 48, 56, 64, 96}
  }

  // ---------------------------------------------------------------- the code's layout

  /** Where the code puts octet `j` of the IPv4 address. */
  function Slot(prefix: nat, j: nat): (i: nat)
    requires Supported(prefix) && j < 4
    ensures prefix / 8 <= i < 16
    ensures prefix < 96 ==> i != 8
  {
    match prefix
    case 32 => 4 + j
    case 40 => if j < 3 then 5 + j else 9
    case 48 => if j < 2 then 6 + j else 7 + j
    case 56 => 9 + j
    case 64 => 9 + j
    case _ => 12 + j
  }

  /** Octets the code forces to zero. */
  predicate Reserved(prefix: nat, i: nat) {
    (i == 8 && prefix < 96) || (i == 7 && prefix == 56)
  }

  ghost predicate IsEmbedding(prefix: nat, net: Octets, v4: Octets, out: Octets)
    requires Supported(prefix) && |net| == 16 && |v4| == 4
  {
    && |out| == 16
    && (forall j: nat :: j < 4 ==> out[Slot(prefix, j)] == v4[j])
    && (forall i: nat :: i < 16 && Reserved(prefix, i) ==> out[i] == 0)
    && (forall i: nat :: i < 16 && !Reserved(prefix, i) && (forall j: nat :: j < 4 ==> Slot(prefix, j) != i) ==> out[i] == net[i])
  }

  method CopyFrom(dst: array<octet>, at: nat, src: Octets)
    requires at + |src| <= dst.Length
    modifies dst
    ensures forall i :: 0 <= i < dst.Length ==> dst[i] == if at <= i < at + |src| then src[i - at] else old(dst[i])
  {
    for k := 0 to |src|
      invariant forall i :: 0 <= i < dst.Length ==> dst[i] == if at <= i < at + k then src[i - at] else old(dst[i])
    {
      dst[at + k] := src[k];
    }
  }

  /** The embedding, written into the octets of the network in place. */
  method ToDns64(octets: array<octet>, prefix: nat, v4: Octets) returns (ok: bool)
    requires octets.Length == 16 && |v4| == 4
    modifies octets
    ensures ok <==> Supported(prefix)
    ensures ok ==> IsEmbedding(prefix, old(octets[..]), v4, octets[..])
    ensures !ok ==> octets[..] == old(octets[..])
  {
    match prefix {
      case 32 =>
        CopyFrom(octets, 4, v4);
        octets[8] := 0;
      case 40 =>
        CopyFrom(octets, 5, v4[0..3]);
        octets[9] := v4[3];
        octets[8] := 0;
      case 48 =>
        CopyFrom(octets, 6, v4[0..2]);
        CopyFrom(octets, 9, v4[2..4]);
        octets[8] := 0;
      case 56 =>
        octets[7] := 0;
        octets[8] := 0;
        CopyFrom(octets, 9, v4);
      case 64 =>
        CopyFrom(octets, 9, v4);
        octets[8] := 0;
      case 96 =>
        CopyFrom(octets, 12, v4);
      case _ =>
        return false;
    }
    return true;
  }

  /** The description fixes the address. */
  lemma EmbeddingUnique(prefix: nat, net: Octets, v4: Octets, out1: Octets, out2: Octets)
    requires Supported(prefix) && |net| == 16 && |v4| == 4
    requires IsEmbedding(prefix, net, v4, out1) && IsEmbedding(prefix, net, v4, out2)
    ensures out1 == out2
  {
    forall i: nat | i < 16 ensures out1[i] == out2[i] {
      if j: nat :| j < 4 && Slot(prefix, j) == i {
        assert out1[i] == v4[j];
      }
    }
  }

  /** The configured prefix survives bit for bit, and the `u` octet is zero below /96. */
  lemma PrefixKept(prefix: nat, net: Octets, v4: Octets, out: Octets)
    requires Supported(prefix) && |net| == 16 && |v4| == 4
    requires IsEmbedding(prefix, net, v4, out)
    ensures out[..prefix / 8] == net[..prefix / 8]
    ensures prefix < 96 ==> out[8] == 0
  {
    forall i: nat | i < prefix / 8 ensures out[i] == net[i] {
      assert !Reserved(prefix, i);
    }
    assert prefix < 96 ==> Reserved(prefix, 8);
  }

  function Extract(prefix: nat, address: Octets): (v4: Octets)
    requires Supported(prefix) && |address| == 16
    ensures |v4| == 4 && forall j: nat :: j < 4 ==> v4[j] == address[Slot(prefix, j)]
  {
    seq(4, j requires 0 <= j < 4 => address[Slot(prefix, j)])
  }

  /** The IPv4 address can be recovered, so different addresses stay different. */
  lemma Recoverable(prefix: nat, net: Octets, v4: Octets, out: Octets)
    requires Supported(prefix) && |net| == 16 && |v4| == 4
    requires IsEmbedding(prefix, net, v4, out)
    ensures Extract(prefix, out) == v4
  {
  }

  // ---------------------------------------------------------------- the layout of RFC 6052

  /** Section 2.2 of RFC 6052: the four octets follow the prefix, stepping over octet 8. */
  function RfcSlot(prefix: nat, j: nat): (i: nat)
    requires Supported(prefix) && j < 4
    ensures prefix / 8 <= i < 16
  {
    var at := prefix / 8 + j;
    if prefix / 8 <= 8 <= at then at + 1 else at
  }

  ghost predicate IsRfcAddress(prefix: nat, net: Octets, v4: Octets, out: Octets)
    requires Supported(prefix) && |net| == 16 && |v4| == 4
  {
    && |out| == 16
    && (forall i: nat :: i < prefix / 8 ==> out[i] == net[i])
    && (forall j: nat :: j < 4 ==> out[RfcSlot(prefix, j)] == v4[j])
    && (forall i: nat :: prefix / 8 <= i < 16 && (forall j: nat :: j < 4 ==> RfcSlot(prefix, j) != i) ==> out[i] == 0)
  }

  /** No bits are set behind the prefix in the octets the code leaves alone. */
  predicate CleanSuffix(prefix: nat, net: Octets)
    requires Supported(prefix) && |net| == 16
  {
    forall i: nat :: prefix / 8 <= i < 16 && !Reserved(prefix, i) && (forall j: nat :: j < 4 ==> Slot(prefix, j) != i) ==> net[i] == 0
  }

  /** Outside /56 the code's slots are those of the standard. */
  lemma SlotsAgree(prefix: nat, j: nat)
    requires Supported(prefix) && j < 4
    ensures Slot(prefix, j) == RfcSlot(prefix, j) <==> prefix != 56
  {
  }

  /** The code builds the address of the standard exactly when nothing is set behind the
      prefix and, for /56, the IPv4 address is 0.0.0.0: there the code starts one octet
      late, in octet 9 instead of octet 7. */
  lemma MeetsRfcExactly(prefix: nat, net: Octets, v4: Octets, out: Octets)
    requires Supported(prefix) && |net| == 16 && |v4| == 4
    requires IsEmbedding(prefix, net, v4, out)
    ensures IsRfcAddress(prefix, net, v4, out) <==> CleanSuffix(prefix, net) && (prefix == 56 ==> v4 == [0, 0, 0, 0])
  {
    PrefixKept(prefix, net, v4, out);
    if prefix == 56 {
      MeetsRfcAt56(net, v4, out);
    } else {
      forall j: nat | j < 4 ensures Slot(prefix, j) == RfcSlot(prefix, j) {
        SlotsAgree(prefix, j);
      }
      assert forall i: nat :: i < 16 && Reserved(prefix, i) ==> out[i] == 0;
    }
  }

  lemma SlotsAt56(net: Octets, v4: Octets, out: Octets)
    requires |net| == 16 && |v4| == 4 && IsEmbedding(56, net, v4, out)
    ensures (forall j: nat :: j < 4 ==> out[RfcSlot(56, j)] == v4[j]) <==> v4 == [0, 0, 0, 0]
    ensures out[7] == 0 && out[12] == v4[3]
  {
    assert Reserved(56, 7) && out[7] == 0;
    assert out[Slot(56, 0)] == v4[0] && out[Slot(56, 1)] == v4[1] && out[Slot(56, 2)] == v4[2] && out[Slot(56, 3)] == v4[3];
    if forall j: nat :: j < 4 ==> out[RfcSlot(56, j)] == v4[j] {
      assert out[RfcSlot(56, 0)] == v4[0] && out[RfcSlot(56, 1)] == v4[1];
      assert out[RfcSlot(56, 2)] == v4[2] && out[RfcSlot(56, 3)] == v4[3];
      assert v4 == [0, 0, 0, 0];
    }
  }

  lemma MeetsRfcAt56(net: Octets, v4: Octets, out: Octets)
    requires |net| == 16 && |v4| == 4 && IsEmbedding(56, net, v4, out)
    ensures IsRfcAddress(56, net, v4, out) <==> CleanSuffix(56, net) && v4 == [0, 0, 0, 0]
  {
    PrefixKept(56, net, v4, out);
    SlotsAt56(net, v4, out);
  }

  /** A translator that follows the standard recovers the address exactly outside /56, or
      when it is 0.0.0.0. */
  lemma RfcReaderRecoversExactly(prefix: nat, net: Octets, v4: Octets, out: Octets)
    requires Supported(prefix) && |net| == 16 && |v4| == 4
    requires IsEmbedding(prefix, net, v4, out)
    ensures (forall j: nat :: j < 4 ==> out[RfcSlot(prefix, j)] == v4[j]) <==> prefix != 56 || v4 == [0, 0, 0, 0]
  {
    if prefix == 56 {
      SlotsAt56(net, v4, out);
    } else {
      forall j: nat | j < 4 ensures Slot(prefix, j) == RfcSlot(prefix, j) {
        SlotsAgree(prefix, j);
      }
    }
  }

  // ---------------------------------------------------------------- rewriting a reply

  predicate IsV4(r: Record) {
    r.rtype == A && r.data.Opaque? && |r.data.octets| == 4
    && forall i :: 0 <= i < 4 ==> 0 <= r.data.octets[i] < 256
  }

  function V4Of(r: Record): (v4: Octets)
    requires IsV4(r)
    ensures |v4| == 4
  {
    seq(4, i requires 0 <= i < 4 => r.data.octets[i])
  }

  /** One record after synthesis: an A record becomes the AAAA record of its embedded
      address, under the same name and with the same lifetime; all others stay. */
  ghost predicate IsSynthesised(prefix: nat, net: Octets, before: Record, after: Record)
    requires |net| == 16
  {
    if IsV4(before) && Supported(prefix) then
      && after.rtype == AAAA && after.name == before.name && after.ttl == before.ttl
      && after.data.Opaque?
      && exists out: Octets :: IsEmbedding(prefix, net, V4Of(before), out) && after.data.octets == out
    else after == before
  }

  /** An A record of any four octets is synthesised, a record of another type never is. */
  lemma AddressSynthesised(prefix: nat, net: Octets, before: Record, after: Record, v4: Octets)
    requires |net| == 16 && |v4| == 4 && Supported(prefix) && IsSynthesised(prefix, net, before, after)
    requires before.data == Opaque(v4)
    ensures before.rtype == A ==>
              exists out: Octets :: IsEmbedding(prefix, net, v4, out) && after == Record(before.name, AAAA, before.ttl, Opaque(out))
    ensures before.rtype != A ==> after == before
  {
    if before.rtype == A {
      assert V4Of(before) == v4;
      var out: Octets :| IsEmbedding(prefix, net, V4Of(before), out) && after.data.octets == out;
      assert after == Record(before.name, AAAA, before.ttl, Opaque(out));
    }
  }

  method SynthesiseAnswers(answers: seq<Record>, prefix: nat, net: Octets) returns (out: seq<Record>)
    requires |net| == 16
    ensures |out| == |answers|
    ensures forall i :: 0 <= i < |answers| ==> IsSynthesised(prefix, net, answers[i], out[i])
  {
    out := answers;
    for i := 0 to |answers|
      invariant |out| == |answers|
      invariant forall j :: 0 <= j < i ==> IsSynthesised(prefix, net, answers[j], out[j])
      invariant forall j :: i <= j < |answers| ==> out[j] == answers[j]
    {
      if IsV4(out[i]) {
        var octets := new octet[16](k requires 0 <= k < 16 => net[k]);
        assert octets[..] == net;
        var ok := ToDns64(octets, prefix, V4Of(out[i]));
        if ok {
          var address: seq<int> := octets[..];
          assert IsEmbedding(prefix, net, V4Of(answers[i]), octets[..]);
          out := out[i := Record(out[i].name, AAAA, out[i].ttl, Opaque(address))];
        }
      }
    }
  }

  datatype Outcome = Ok(reply: Response) | Err(error: nat)

  predicate HasAaaa(r: Response) {
    HasType(r.answers, AAAA)
  }

  /** An AAAA query with a DNS64 prefix in force.  `aaaa` is what the chain answers; `a` what it
      would answer to the same query for A; `suppressed` tells that the absence of AAAA was
      decided further down, which synthesis must not undo. */
  method Handle(aaaa: Outcome, suppressed: bool, a: Outcome, prefix: nat, net: Octets) returns (r: Outcome)
    requires |net| == 16
    ensures aaaa.Ok? && (suppressed || HasAaaa(aaaa.reply)) ==> r == aaaa
    ensures a.Err? ==> r == aaaa
    ensures a.Ok? && (aaaa.Err? || !(suppressed || HasAaaa(aaaa.reply))) ==>
              && r.Ok? && |r.reply.answers| == |a.reply.answers|
              && r.reply == a.reply.(answers := r.reply.answers, query := a.reply.query.(qtype := AAAA))
              && forall i :: 0 <= i < |a.reply.answers| ==> IsSynthesised(prefix, net, a.reply.answers[i], r.reply.answers[i])
  {
    var needed := aaaa.Err? || (!suppressed && !HasAaaa(aaaa.reply));
    if !needed || a.Err? {
      return aaaa;
    }
    var answers := SynthesiseAnswers(a.reply.answers, prefix, net);
    r := Ok(a.reply.(answers := answers, query := a.reply.query.(qtype := AAAA)));
  }
}
