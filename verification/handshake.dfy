/** The session handshake: version negotiation, the signed transcript, and the
    values both ends derive from it. Message encoding, the digest and the TLS
    exporter (section 7.5 of RFC 8446) are parameters. */
module Handshake {
  import opened Types
  import opened Collections

  type Byte = b: int | 0 <= b < 256 witness 0

  datatype Hello = Hello(
    protocolMajor: nat,
    kind: int,
    deviceId: DeviceId,
    name: string, platform: string, model: string,
    nonce: seq<Byte>,
    rootKey: seq<Byte>,
    certificate: seq<Byte>,
    binding: seq<Byte>,
    minMinor: nat, maxMinor: nat)

  // ---- Version negotiation ----

  /** The protocol versions this build speaks. */
  datatype Versions = Versions(major: nat, minMinor: nat, maxMinor: nat)

  /** The checks of `validate_hello` that look at the hello alone. */
  predicate PassesRangeChecks(v: Versions, h: Hello) {
    && h.protocolMajor == v.major
    && h.minMinor <= h.maxMinor
    && h.maxMinor >= v.minMinor
    && h.minMinor <= v.maxMinor
    && |h.nonce| == 32 && |h.certificate| == 32
    && |h.name| <= 255 && |h.platform| <= 64 && |h.model| <= 255
  }

  predicate Speaks(h: Hello, minor: nat) {
    h.minMinor <= minor <= h.maxMinor
  }

  /** Picks the highest minor version both sides speak, or none if there is none. */
  function NegotiateMinor(local: Hello, remote: Hello): (minor: Option<nat>)
    ensures minor.Some? ==> Speaks(local, minor.value) && Speaks(remote, minor.value)
    ensures forall m: nat :: Speaks(local, m) && Speaks(remote, m) ==> minor.Some? && m <= minor.value
  {
    var minimum := if local.minMinor >= remote.minMinor then local.minMinor else remote.minMinor;
    var maximum := if local.maxMinor <= remote.maxMinor then local.maxMinor else remote.maxMinor;
    if minimum <= maximum then Some(maximum) else None
  }

  /** A hello that passed the range checks always negotiates with a hello this
      build sends, and both ends settle on the same minor version. */
  lemma CheckedHelloNegotiates(v: Versions, local: Hello, remote: Hello)
    requires v.minMinor <= v.maxMinor
    requires local.minMinor == v.minMinor && local.maxMinor == v.maxMinor
    requires PassesRangeChecks(v, remote)
    ensures NegotiateMinor(local, remote).Some?
    ensures NegotiateMinor(local, remote) == NegotiateMinor(remote, local)
  {
    var m := if remote.maxMinor <= v.maxMinor then remote.maxMinor else v.maxMinor;
    assert Speaks(local, m) && Speaks(remote, m);
  }

  /** The version and length checks, by what they are for: the hello is of this major
      version, names a range of minors that meets this build's, and keeps to the lengths. */
  lemma RangeChecksExactly(v: Versions, h: Hello)
    requires v.minMinor <= v.maxMinor
    ensures PassesRangeChecks(v, h) <==>
              && h.protocolMajor == v.major
              && (exists m: nat :: Speaks(h, m) && v.minMinor <= m <= v.maxMinor)
              && |h.nonce| == 32 && |h.certificate| == 32
              && |h.name| <= 255 && |h.platform| <= 64 && |h.model| <= 255
  {
    var m := if h.maxMinor <= v.maxMinor then h.maxMinor else v.maxMinor;
    if PassesRangeChecks(v, h) {
      assert Speaks(h, m);
    }
  }

  // ---- Length-prefixed encoding ----

  const U64 := 0x1_0000_0000_0000_0000

  function Power256(width: nat): (p: nat)
    ensures p > 0
  {
    if width == 0 then 1 else 256 * Power256(width - 1)
  }

  function BigEndian(n: nat, width: nat): (bytes: seq<Byte>)
    ensures |bytes| == width
  {
    if width == 0 then [] else BigEndian(n / 256, width - 1) + [n % 256]
  }

  function FromBigEndian(bytes: seq<Byte>): nat {
    if bytes == [] then 0 else FromBigEndian(Before(bytes)) * 256 + Last(bytes)
  }

  lemma {:induction false} BigEndianRoundTrip(n: nat, width: nat)
    requires n < Power256(width)
    ensures FromBigEndian(BigEndian(n, width)) == n
  {
    if width > 0 {
      BigEndianRoundTrip(n / 256, width - 1);
      assert Before(BigEndian(n, width)) == BigEndian(n / 256, width - 1);
    }
  }

  lemma EightBytesHoldU64()
    ensures Power256(8) == U64
  {
    assert Power256(4) == 0x1_0000_0000;
  }

  /** Appends the length, as the low 64 bits in big-endian order, and the message. */
  function Framed(message: seq<Byte>): seq<Byte> {
    BigEndian(|message| % U64, 8) + message
  }

  method AppendMessage(target: seq<Byte>, message: seq<Byte>) returns (grown: seq<Byte>)
    ensures grown == target + Framed(message)
  {
    grown := target;
    grown := grown + BigEndian(|message| % U64, 8);
    grown := grown + message;
  }

  /** Reads one framed message off the front. */
  function Unframe(bytes: seq<Byte>): Option<(seq<Byte>, seq<Byte>)> {
    if |bytes| < 8 then None
    else
      var length := FromBigEndian(bytes[..8]);
      if |bytes| < 8 + length then None else Some((bytes[8..8 + length], bytes[8 + length..]))
  }

  lemma UnframeUndoesFramed(message: seq<Byte>, rest: seq<Byte>)
    requires |message| < U64
    ensures Unframe(Framed(message) + rest) == Some((message, rest))
  {
    LengthRoundTrip(|message|);
    assert |message| % U64 == |message|;
    UnframeParts(BigEndian(|message|, 8), message, rest);
  }

  lemma LengthRoundTrip(n: nat)
    requires n < U64
    ensures FromBigEndian(BigEndian(n, 8)) == n
  {
    EightBytesHoldU64();
    BigEndianRoundTrip(n, 8);
  }

  lemma UnframeParts(length: seq<Byte>, message: seq<Byte>, rest: seq<Byte>)
    requires |length| == 8 && FromBigEndian(length) == |message|
    ensures Unframe(length + message + rest) == Some((message, rest))
  {
    var bytes := length + message + rest;
    assert bytes[..8] == length;
    assert bytes[8..8 + |message|] == message;
    assert bytes[8 + |message|..] == rest;
  }

  /** A frame is eight bytes that hold the length, most significant first, and the message. */
  lemma FrameLayout(message: seq<Byte>)
    requires |message| < 0x1_0000_0000_0000_0000
    ensures var frame := Framed(message);
            && |frame| == 8 + |message| && frame[8..] == message
            && FromBigEndian(frame[..8]) == |message|
  {
    assert |message| % U64 == |message|;
    LengthRoundTrip(|message|);
    FrameParts(BigEndian(|message|, 8), message);
  }

  lemma FrameParts(length: seq<Byte>, message: seq<Byte>)
    requires |length| == 8
    ensures (length + message)[..8] == length && (length + message)[8..] == message
  {
  }

  /** Four bytes as a number, most significant first. */
  function Word(b: seq<Byte>): nat
    requires |b| >= 4
  {
    (b[0] as int) * 0x100_0000 + (b[1] as int) * 0x1_0000 + (b[2] as int) * 0x100 + b[3] as int
  }

  lemma FourBytes(b: seq<Byte>)
    requires |b| == 4
    ensures FromBigEndian(b) == Word(b)
  {
    var one, two, three := b[..1], b[..2], b[..3];
    assert Before(b) == three && Before(three) == two && Before(two) == one && Before(one) == [];
    assert FromBigEndian(one) == b[0] as int;
    assert FromBigEndian(two) == (b[0] as int) * 256 + b[1] as int;
    assert FromBigEndian(three) == ((b[0] as int) * 256 + b[1] as int) * 256 + b[2] as int;
  }

  // ---- Transcript ----

  /** The ASCII domain separator "arcrelay.session-transcript.v1" and its NUL. */
  const DOMAIN: seq<Byte> :=
    [97, 114, 99, 114, 101, 108, 97, 121, 46, 115, 101, 115, 115, 105, 111, 110, 45,
     116, 114, 97, 110, 115, 99, 114, 105, 112, 116, 46, 118, 49, 0]

  lemma DomainText()
    ensures |DOMAIN| == 31 && DOMAIN[30] == 0
    ensures forall i :: 0 <= i < 30 ==> DOMAIN[i] as int == "arcrelay.session-transcript.v1"[i] as int
  {
  }

  function TranscriptOf(first: seq<Byte>, second: seq<Byte>, exporter: seq<Byte>): seq<Byte> {
    DOMAIN + Framed(first) + Framed(second) + exporter
  }

  /** The inverse of the transcript encoding. */
  function ParseTranscript(bytes: seq<Byte>): Option<(seq<Byte>, seq<Byte>, seq<Byte>)> {
    if |bytes| < |DOMAIN| || bytes[..|DOMAIN|] != DOMAIN then None
    else
      match Unframe(bytes[|DOMAIN|..])
      case None => None
      case Some((first, rest)) =>
        match Unframe(rest)
        case None => None
        case Some((second, exporter)) => Some((first, second, exporter))
  }

  lemma {:induction false} TranscriptRoundTrip(first: seq<Byte>, second: seq<Byte>, exporter: seq<Byte>)
    requires |first| < U64 && |second| < U64
    ensures ParseTranscript(TranscriptOf(first, second, exporter)) == Some((first, second, exporter))
  {
    var bytes := TranscriptOf(first, second, exporter);
    assert bytes[..|DOMAIN|] == DOMAIN;
    assert bytes[|DOMAIN|..] == Framed(first) + (Framed(second) + exporter);
    UnframeUndoesFramed(first, Framed(second) + exporter);
    UnframeUndoesFramed(second, exporter);
  }

  /** Transcript injectivity: equal transcripts come from equal messages and exporters. */
  lemma {:induction false} TranscriptInjective(f1: seq<Byte>, s1: seq<Byte>, e1: seq<Byte>,
                                               f2: seq<Byte>, s2: seq<Byte>, e2: seq<Byte>)
    requires |f1| < U64 && |s1| < U64 && |f2| < U64 && |s2| < U64
    requires TranscriptOf(f1, s1, e1) == TranscriptOf(f2, s2, e2)
    ensures f1 == f2 && s1 == s2 && e1 == e2
  {
    TranscriptRoundTrip(f1, s1, e1);
    TranscriptRoundTrip(f2, s2, e2);
  }

  datatype Role = Outbound | Inbound

  /** One device's view of an exchange after both hellos. */
  datatype End = End(role: Role, local: Hello, remote: Hello, exporter: seq<Byte>)

  /** What the protocol buffer library and the digest supply. */
  datatype Primitives = Primitives(encode: Hello -> seq<Byte>, digest: seq<Byte> -> seq<Byte>)

  function First(e: End): Hello {
    if e.local.deviceId <= e.remote.deviceId then e.local else e.remote
  }

  function Second(e: End): Hello {
    if e.local.deviceId <= e.remote.deviceId then e.remote else e.local
  }

  function Transcript(p: Primitives, e: End): seq<Byte> {
    TranscriptOf(p.encode(First(e)), p.encode(Second(e)), e.exporter)
  }

  /** What a transcript holds: the hello of the smaller device id, the other hello, and the
      keying material, behind the domain separator. */
  lemma {:induction false} TranscriptContents(p: Primitives, e: End)
    requires |p.encode(e.local)| < U64 && |p.encode(e.remote)| < U64
    ensures ParseTranscript(Transcript(p, e))
            == if e.local.deviceId < e.remote.deviceId
               then Some((p.encode(e.local), p.encode(e.remote), e.exporter))
               else if e.remote.deviceId < e.local.deviceId
               then Some((p.encode(e.remote), p.encode(e.local), e.exporter))
               else Some((p.encode(e.local), p.encode(e.remote), e.exporter))
    ensures |Transcript(p, e)| >= 31
    ensures Transcript(p, e)[..31] == DOMAIN
  {
    TranscriptRoundTrip(p.encode(First(e)), p.encode(Second(e)), e.exporter);
  }

  /** `exporter` is absent when TLS cannot export keying material. */
  method SessionTranscript(p: Primitives, local: Hello, remote: Hello, exporter: Option<seq<Byte>>)
    returns (result: Result<seq<Byte>, ()>)
    ensures result.Ok? <==> exporter.Some?
    ensures result.Ok? ==> forall role :: result.value == Transcript(p, End(role, local, remote, exporter.value))
  {
    if exporter.None? {
      return Err(());
    }
    var first, second := local, remote;
    if !(local.deviceId <= remote.deviceId) {
      first, second := remote, local;
    }
    var transcript := DOMAIN;
    transcript := AppendMessage(transcript, p.encode(first));
    transcript := AppendMessage(transcript, p.encode(second));
    transcript := transcript + exporter.value;
    return Ok(transcript);
  }

  /** The six-digit short authentication string. */
  function VerificationCode(p: Primitives, transcript: seq<Byte>): string {
    SixDigits(FromBigEndian(FirstN(p.digest(transcript), 4)) % 1_000_000)
  }

  lemma ModuloTwice(n: nat)
    ensures (n % 1_000_000) % 1_000_000 == n % 1_000_000
  {
  }

  /** What the code shows: the first four bytes of the transcript's digest, most significant
      first, modulo one million. */
  lemma {:induction false} CodeShowsDigest(p: Primitives, transcript: seq<Byte>)
    requires |p.digest(transcript)| >= 4
    ensures |VerificationCode(p, transcript)| == 6
    ensures forall i :: 0 <= i < 6 ==> '0' <= VerificationCode(p, transcript)[i] <= '9'
    ensures DecimalValue(VerificationCode(p, transcript)) == Residue(p.digest(transcript))
  {
    FirstWord(p.digest(transcript));
    ModuloTwice(Word(p.digest(transcript)));
  }

  lemma FirstWord(d: seq<Byte>)
    requires |d| >= 4
    ensures FromBigEndian(FirstN(d, 4)) == Word(d)
  {
    assert FirstN(d, 4) == d[..4];
    FourBytes(d[..4]);
  }

  function Residue(digest: seq<Byte>): nat
    requires |digest| >= 4
  {
    Word(digest) % 1_000_000
  }

  /** Two transcripts show one code if and only if their digests agree in that residue. */
  lemma {:induction false} CodesAgreeExactly(p: Primitives, one: seq<Byte>, other: seq<Byte>)
    requires |p.digest(one)| >= 4 && |p.digest(other)| >= 4
    ensures VerificationCode(p, one) == VerificationCode(p, other)
            <==> Residue(p.digest(one)) == Residue(p.digest(other))
  {
    CodeShowsDigest(p, one);
    CodeShowsDigest(p, other);
    if DecimalValue(VerificationCode(p, one)) == DecimalValue(VerificationCode(p, other)) {
      SameValueSameDigits(VerificationCode(p, one), VerificationCode(p, other));
    }
  }

  /** Strings of as many decimal digits that denote one number are the same. */
  lemma {:induction false} SameValueSameDigits(one: string, other: string)
    requires |one| == |other| && DecimalValue(one) == DecimalValue(other)
    requires forall i :: 0 <= i < |one| ==> '0' <= one[i] <= '9' && '0' <= other[i] <= '9'
    ensures one == other
  {
    if one != [] {
      assert '0' <= Last(one) <= '9' && '0' <= Last(other) <= '9';
      SameValueSameDigits(Before(one), Before(other));
      assert one == Before(one) + [Last(one)] && other == Before(other) + [Last(other)];
    }
  }

  function SixDigits(n: nat): (code: string)
    ensures |code| == 6
    ensures forall i :: 0 <= i < 6 ==> '0' <= code[i] <= '9'
    ensures DecimalValue(code) == n % 1_000_000
  {
    assert Power10(6) == 10 * Power10(5) && Power10(4) == 10 * Power10(3) && Power10(2) == 100;
    Digits(n, 6)
  }

  /** The number a string of decimal digits denotes. */
  function DecimalValue(code: string): int {
    if code == [] then 0 else 10 * DecimalValue(Before(code)) + (Last(code) as int - '0' as int)
  }

  function Power10(n: nat): (p: nat)
    ensures p > 0
  {
    if n == 0 then 1 else 10 * Power10(n - 1)
  }

  /** The last `width` decimal digits, padded with zeros. */
  function Digits(n: nat, width: nat): (code: string)
    ensures |code| == width
    ensures forall i :: 0 <= i < width ==> '0' <= code[i] <= '9'
    ensures DecimalValue(code) == n % Power10(width)
  {
    if width == 0 then []
    else
      var front := Digits(n / 10, width - 1);
      assert Before(front + [Digit(n)]) == front;
      ModuloStep(n, Power10(width - 1));
      front + [Digit(n)]
  }

  lemma ModuloStep(n: nat, m: nat)
    requires m > 0
    ensures 10 * ((n / 10) % m) + n % 10 == n % (10 * m)
  {
    var a, b := n / 10 / m, n / 10 % m;
    assert n == 10 * (m * a + b) + n % 10;
    assert 10 * (m * a) == (10 * m) * a;
    ModuloIs(n, 10 * m, a, 10 * b + n % 10);
  }

  lemma ModuloIs(n: nat, m: nat, a: nat, r: nat)
    requires n == m * a + r && r < m
    ensures n % m == r
  {
    var q := n / m;
    if q > a {
      assert m * q >= m * (a + 1) by { MonotoneProduct(m, a + 1, q); }
    } else if q < a {
      assert m * a >= m * (q + 1) by { MonotoneProduct(m, q + 1, a); }
    }
  }

  lemma MonotoneProduct(m: nat, a: nat, b: nat)
    requires a <= b
    ensures m * a <= m * b
  {
    assert m * b == m * a + m * (b - a);
  }

  function Digit(n: nat): (c: char)
    ensures '0' <= c <= '9' && c as int == '0' as int + n % 10
  {
    '0' + (n % 10) as char
  }

  /** The session rank: the initiator's id and nonce. */
  function Rank(e: End): (DeviceId, seq<Byte>) {
    match e.role
    case Outbound => (e.local.deviceId, e.local.nonce)
    case Inbound => (e.remote.deviceId, e.remote.nonce)
  }

  ghost predicate InjectiveEncoding(p: Primitives) {
    forall g, h :: p.encode(g) == p.encode(h) ==> g == h
  }

  /** Both hellos fit a 64-bit length, and they come from different devices. */
  predicate Sound(p: Primitives, e: End) {
    |p.encode(e.local)| < U64 && |p.encode(e.remote)| < U64 && e.local.deviceId != e.remote.deviceId
  }

  /** The two views of one undisturbed exchange. */
  predicate Mirrored(a: End, b: End) {
    a.local == b.remote && a.remote == b.local && a.exporter == b.exporter && a.role != b.role
  }

  lemma SameTranscriptSameViews(p: Primitives, a: End, b: End)
    requires InjectiveEncoding(p) && Sound(p, a) && Sound(p, b)
    requires a.local.deviceId != b.local.deviceId && Transcript(p, a) == Transcript(p, b)
    ensures a.local == b.remote && a.remote == b.local && a.exporter == b.exporter
  {
    TranscriptInjective(p.encode(First(a)), p.encode(Second(a)), a.exporter,
                        p.encode(First(b)), p.encode(Second(b)), b.exporter);
    assert First(a) == First(b) && Second(a) == Second(b);
  }

  /** Two ends sign the same transcript exactly when each received what the other
      sent over the same channel: the ordering by device id loses nothing. */
  lemma {:induction false} TranscriptsAgreeIffMirrored(p: Primitives, a: End, b: End)
    requires InjectiveEncoding(p) && Sound(p, a) && Sound(p, b)
    requires a.local.deviceId != b.local.deviceId && a.role != b.role
    ensures Transcript(p, a) == Transcript(p, b) <==> Mirrored(a, b)
  {
    if Transcript(p, a) == Transcript(p, b) {
      SameTranscriptSameViews(p, a, b);
    }
  }

  /** Whether a device whose completed views are `ends` signed a message. Devices
      sign, in the session context, only the transcripts of their own exchanges. */
  ghost predicate Signed(p: Primitives, ends: set<End>, signer: DeviceId, message: seq<Byte>) {
    exists b :: b in ends && b.local.deviceId == signer && Transcript(p, b) == message
  }

  /** Two devices that share a TLS channel are its client and its server. */
  ghost predicate OneClientPerChannel(ends: set<End>) {
    forall d, e :: d in ends && e in ends ==>
                     (d.exporter == e.exporter && d.local.deviceId != e.local.deviceId ==> d.role != e.role)
  }

  /** The rank names the end that dialled. */
  lemma RankIsInitiators(a: End, b: End)
    requires Mirrored(a, b) && a.role == Outbound
    ensures Rank(a) == Rank(b) == (a.local.deviceId, a.local.nonce)
  {
  }

  /** Handshake agreement against an active network: when an end accepts its peer's
      signature over its own transcript, the peer has a matching view of the same
      channel, and the two ends share the verification code, the minor version and
      the session rank. */
  lemma {:induction false} HandshakeAgreement(p: Primitives, ends: set<End>, a: End) returns (b: End)
    requires InjectiveEncoding(p)
    requires a in ends && forall e :: e in ends ==> Sound(p, e)
    requires OneClientPerChannel(ends)
    requires Signed(p, ends, a.remote.deviceId, Transcript(p, a))
    ensures b in ends && b.local.deviceId == a.remote.deviceId && Mirrored(a, b)
    ensures Transcript(p, a) == Transcript(p, b)
    ensures VerificationCode(p, Transcript(p, a)) == VerificationCode(p, Transcript(p, b))
    ensures NegotiateMinor(a.local, a.remote) == NegotiateMinor(b.local, b.remote)
    ensures Rank(a) == Rank(b)
            == (if a.role == Outbound then (a.local.deviceId, a.local.nonce) else (b.local.deviceId, b.local.nonce))
  {
    b :| b in ends && b.local.deviceId == a.remote.deviceId && Transcript(p, b) == Transcript(p, a);
    SameTranscriptSameViews(p, a, b);
    MirroredEndsAgree(a, b);
  }

  lemma MirroredEndsAgree(a: End, b: End)
    requires Mirrored(a, b)
    ensures NegotiateMinor(a.local, a.remote) == NegotiateMinor(b.local, b.remote) && Rank(a) == Rank(b)
  {
  }
}
