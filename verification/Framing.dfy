/**
 Framing of PostgreSQL messages as the relay sees them: the header check, the verdicts of
 the per-packet callback, and a reference that handles a byte stream one whole packet at a
 time. The relay itself, which sees the stream in arbitrary pieces, is in module `Relay`.
 */
module Framing {

  newtype Byte = b: int | 0 <= b < 256

  const HEADER_SIZE := 5
  const LONG_MESSAGE_SIZE := 640 * 1024 * 1024
  const INT_LIMIT := 0x8000_0000

  /** What the callback decides about one packet. */
  datatype Verdict = Pass | Skip | Detach | Refuse(code: int) {
    /** The packet is put into the output queue. */
    predicate Forwards() {
      Pass? || Detach?
    }

    function ToStatus(): Status {
      match this
      case Pass => Ok
      case Skip => Ok
      case Detach => Detached
      case Refuse(code) => Refused(code)
    }
  }

  datatype Status =
    | Ok
    | Undef
    | Attach
    | Detached
    | Refused(code: int)
    | SyncBroken
    | Oversize
    | ReadError
    | WriteError

  // ---------------------------------------------------------------- header

  datatype Header = Broken | TooLong | Framed(total: nat)

  /** The big-endian length field, which counts itself but not the type byte. */
  function DeclaredLength(h: seq<Byte>): nat
    requires |h| >= HEADER_SIZE
  {
    0x100_0000 * (h[1] as int) + 0x1_0000 * (h[2] as int) + 0x100 * (h[3] as int) + h[4] as int
  }

  predicate LongAllowed(t: Byte) {
    t as char in {'T', 'D', 'd', 'V', 'E', 'N', 'A', 't', 'B', 'P', 'Q'}
  }

  /** `TooLong` stands for an accepted length whose total does not fit a C `int`. */
  function ReadHeader(h: seq<Byte>): (r: Header)
    requires |h| >= HEADER_SIZE
    ensures r.Framed? ==> HEADER_SIZE <= r.total < INT_LIMIT && r.total == 1 + DeclaredLength(h)
    ensures r.Broken? <==>
              || DeclaredLength(h) < 4 || h[0] < 0x20
              || (DeclaredLength(h) >= LONG_MESSAGE_SIZE && !LongAllowed(h[0]))
    ensures r.TooLong? ==> 1 + DeclaredLength(h) >= INT_LIMIT && LongAllowed(h[0])
  {
    var len := DeclaredLength(h);
    if len < 4 || h[0] < 0x20 then Broken
    else if len >= LONG_MESSAGE_SIZE && !LongAllowed(h[0]) then Broken
    else if 1 + len >= INT_LIMIT then TooLong
    else Framed(1 + len)
  }

  /** ParameterStatus, ReadyForQuery and ErrorResponse reach the callback only when complete. */
  predicate FullRequired(t: Byte) {
    t as char in {'S', 'Z', 'E'}
  }

  // ------------------------------------------------- whole-packet reference

  /** `rest` is the incomplete packet at the end, or what follows the packet that stopped the run. */
  datatype Parsed<S> = Parsed(out: seq<Byte>, state: S, status: Status, rest: seq<Byte>)

  /** `p` with `piece` emitted in front of it. */
  function After<S>(piece: seq<Byte>, p: Parsed<S>): Parsed<S> {
    p.(out := piece + p.out)
  }

  function Packets<S>(cb: (S, seq<Byte>) -> (S, Verdict), s: S, c: seq<Byte>): Parsed<S>
    decreases |c|
  {
    if |c| < HEADER_SIZE then Parsed([], s, Ok, c)
    else
      match ReadHeader(c)
      case Broken => Parsed([], s, SyncBroken, c)
      case TooLong => Parsed([], s, Oversize, c)
      case Framed(total) =>
        if |c| < total then Parsed([], s, Ok, c)
        else
          var (s1, v) := cb(s, c[..total]);
          var piece := if v.Forwards() then c[..total] else [];
          if v.ToStatus() != Ok then Parsed(piece, s1, v.ToStatus(), c[total..])
          else After(piece, Packets(cb, s1, c[total..]))
  }

  datatype Outcome<S> = Outcome(out: seq<Byte>, state: S, status: Status)

  /** The trailing packet is incomplete but of a type that is forwarded as it arrives. */
  predicate Streaming(rest: seq<Byte>) {
    |rest| >= HEADER_SIZE && !FullRequired(rest[0]) &&
    match ReadHeader(rest)
    case Framed(total) => |rest| < total
    case _ => false
  }

  /** All of `c` handled at once: whole packets, then the part of a streamed packet that is there. */
  function Whole<S>(cb: (S, seq<Byte>) -> (S, Verdict), s: S, c: seq<Byte>): Outcome<S> {
    var p := Packets(cb, s, c);
    if p.status == Ok && Streaming(p.rest) then
      var (s1, v) := cb(p.state, p.rest);
      Outcome(p.out + (if v.Forwards() then p.rest else []), s1, v.ToStatus())
    else
      Outcome(p.out, p.state, p.status)
  }

  // ------------------------------------------------------------- callbacks

  /** For a streamed type the callback's answer depends on the type byte alone. */
  ghost predicate TypeOnly<S(!new)>(cb: (S, seq<Byte>) -> (S, Verdict)) {
    forall s: S, a: seq<Byte>, b: seq<Byte> {:trigger cb(s, a), cb(s, b)} ::
      |a| > 0 && |b| > 0 && a[0] == b[0] && !FullRequired(a[0]) ==> cb(s, a) == cb(s, b)
  }

  /** The callback never asks for a detach in the middle of a streamed packet. */
  ghost predicate NoStreamedDetach<S(!new)>(cb: (S, seq<Byte>) -> (S, Verdict)) {
    forall s: S, a: seq<Byte> {:trigger cb(s, a)} ::
      |a| > 0 && a[0] >= 0x20 && !FullRequired(a[0]) ==> !cb(s, a).1.Detach?
  }

  /** Once a run has stopped, bytes that arrive later cannot change what it did. */
  ghost predicate StopsAreFinal<S(!new)>(cb: (S, seq<Byte>) -> (S, Verdict)) {
    forall s: S, c: seq<Byte>, d: seq<Byte> {:trigger Whole(cb, s, c + d)} ::
      Whole(cb, s, c).status != Ok ==> Whole(cb, s, c + d) == Whole(cb, s, c)
  }

  // ---------------------------------------------------------------- lemmas

  lemma {:induction false} PacketsEndIncomplete<S>(cb: (S, seq<Byte>) -> (S, Verdict), s: S, c: seq<Byte>)
    ensures var p := Packets(cb, s, c);
            p.status == Ok ==> Packets(cb, p.state, p.rest) == Parsed([], p.state, Ok, p.rest)
    decreases |c|
  {
    if |c| >= HEADER_SIZE && ReadHeader(c).Framed? && |c| >= ReadHeader(c).total {
      var total := ReadHeader(c).total;
      PacketsEndIncomplete(cb, cb(s, c[..total]).0, c[total..]);
    }
  }

  /** One complete packet at the front is handled the same way whatever follows it. */
  lemma ResumePacket<S>(cb: (S, seq<Byte>) -> (S, Verdict), s: S, c: seq<Byte>, d: seq<Byte>)
    requires |c| >= HEADER_SIZE && ReadHeader(c).Framed? && |c| >= ReadHeader(c).total
    ensures var total := ReadHeader(c).total;
            var (s1, v) := cb(s, c[..total]);
            var piece := if v.Forwards() then c[..total] else [];
            && (v.ToStatus() == Ok ==>
                  Packets(cb, s, c + d) == After(piece, Packets(cb, s1, c[total..] + d)))
            && (v.ToStatus() != Ok ==> Packets(cb, s, c + d) == Parsed(piece, s1, v.ToStatus(), c[total..] + d))
  {
    var total := ReadHeader(c).total;
    assert ReadHeader(c + d) == Framed(total);
    assert (c + d)[..total] == c[..total];
    assert (c + d)[total..] == c[total..] + d;
  }

  /** Parsing `c + d` is parsing `c` and going on at the incomplete packet that `c` ends in. */
  ghost predicate Resumes<S>(cb: (S, seq<Byte>) -> (S, Verdict), s: S, c: seq<Byte>, d: seq<Byte>) {
    var p := Packets(cb, s, c);
    Packets(cb, s, c + d) == After(p.out, Packets(cb, p.state, p.rest + d))
  }

  lemma AfterAfter<S>(a: seq<Byte>, b: seq<Byte>, p: Parsed<S>)
    ensures After(a, After(b, p)) == After(a + b, p)
  {
    assert a + (b + p.out) == (a + b) + p.out;
  }

  lemma ResumeStep<S>(cb: (S, seq<Byte>) -> (S, Verdict), s: S, c: seq<Byte>, d: seq<Byte>)
    requires |c| >= HEADER_SIZE && ReadHeader(c).Framed? && |c| >= ReadHeader(c).total
    requires cb(s, c[..ReadHeader(c).total]).1.ToStatus() == Ok
    requires Resumes(cb, cb(s, c[..ReadHeader(c).total]).0, c[ReadHeader(c).total..], d)
    ensures Resumes(cb, s, c, d)
  {
    var total := ReadHeader(c).total;
    var (s1, v) := cb(s, c[..total]);
    var piece := if v.Forwards() then c[..total] else [];
    var p := Packets(cb, s1, c[total..]);
    var q := Packets(cb, p.state, p.rest + d);
    assert Packets(cb, s, c) == After(piece, p);
    ResumePacket(cb, s, c, d);
    AfterAfter(piece, p.out, q);
  }

  /** Parsing can be resumed at the incomplete packet when more bytes arrive. */
  lemma {:induction false} Resume<S>(cb: (S, seq<Byte>) -> (S, Verdict), s: S, c: seq<Byte>, d: seq<Byte>)
    requires Packets(cb, s, c).status == Ok
    ensures Resumes(cb, s, c, d)
    decreases |c|
  {
    if |c| < HEADER_SIZE || |c| < ReadHeader(c).total {
      assert Packets(cb, s, c + d) == After([], Packets(cb, s, c + d));
    } else {
      var total := ReadHeader(c).total;
      Resume(cb, cb(s, c[..total]).0, c[total..], d);
      ResumeStep(cb, s, c, d);
    }
  }

  /** A stop inside whole packets is not affected by later bytes. */
  lemma {:induction false} PacketsStop<S>(cb: (S, seq<Byte>) -> (S, Verdict), s: S, c: seq<Byte>, d: seq<Byte>)
    requires Packets(cb, s, c).status != Ok
    ensures var p := Packets(cb, s, c);
            Packets(cb, s, c + d) == p.(rest := p.rest + d)
    decreases |c|
  {
    if ReadHeader(c).Framed? {
      var total := ReadHeader(c).total;
      ResumePacket(cb, s, c, d);
      var (s1, v) := cb(s, c[..total]);
      if v.ToStatus() == Ok {
        PacketsStop(cb, s1, c[total..], d);
      }
    }
  }

  lemma StreamedStop<S(!new)>(cb: (S, seq<Byte>) -> (S, Verdict), s: S, c: seq<Byte>, d: seq<Byte>)
    requires TypeOnly(cb) && NoStreamedDetach(cb)
    requires Packets(cb, s, c).status == Ok && Whole(cb, s, c).status != Ok
    ensures Whole(cb, s, c + d) == Whole(cb, s, c)
  {
    var p := Packets(cb, s, c);
    var whole := p.rest + d;
    var total := ReadHeader(p.rest).total;
    Resume(cb, s, c, d);
    assert ReadHeader(whole) == Framed(total);
    var seen := if |whole| < total then whole else whole[..total];
    assert seen[0] == p.rest[0];
    assert cb(p.state, seen) == cb(p.state, p.rest);
  }

  lemma StreamedDetachIsNotFinal<S(!new)>(cb: (S, seq<Byte>) -> (S, Verdict), s: S, a: seq<Byte>)
    requires TypeOnly(cb)
    requires |a| > 0 && a[0] >= 0x20 && !FullRequired(a[0]) && cb(s, a).1.Detach?
    ensures var c: seq<Byte> := [a[0], 0, 0, 0, 5];
            && Whole(cb, s, c) == Outcome(c, cb(s, a).0, Detached)
            && Whole(cb, s, c + [0]) == Outcome(c + [0], cb(s, a).0, Detached)
    ensures !StopsAreFinal(cb)
  {
    var c: seq<Byte> := [a[0], 0, 0, 0, 5];
    assert ReadHeader(c) == Framed(6);
    assert cb(s, c) == cb(s, a);
    assert ReadHeader(c + [0]) == Framed(6);
    assert (c + [0])[..6] == c + [0];
    assert cb(s, c + [0]) == cb(s, a);
    assert |c + [0]| != |c|;
  }

  /** Where the stream is cut does not matter, exactly when no streamed packet can ask for a detach. */
  lemma StopsAreFinalIff<S(!new)>(cb: (S, seq<Byte>) -> (S, Verdict))
    requires TypeOnly(cb)
    ensures StopsAreFinal(cb) <==> NoStreamedDetach(cb)
  {
    if NoStreamedDetach(cb) {
      forall s: S, c: seq<Byte>, d: seq<Byte> | Whole(cb, s, c).status != Ok
        ensures Whole(cb, s, c + d) == Whole(cb, s, c)
      {
        if Packets(cb, s, c).status == Ok {
          StreamedStop(cb, s, c, d);
        } else {
          PacketsStop(cb, s, c, d);
        }
      }
    }
    if StopsAreFinal(cb) {
      forall s: S, a: seq<Byte> | |a| > 0 && a[0] >= 0x20 && !FullRequired(a[0])
        ensures !cb(s, a).1.Detach?
      {
        if cb(s, a).1.Detach? {
          StreamedDetachIsNotFinal(cb, s, a);
          assert false;
        }
      }
    }
  }

  // ----------------------------------------------------------- parts of a stream

  function Joined(parts: seq<seq<Byte>>): seq<Byte> {
    if parts == [] then [] else Joined(parts[..|parts| - 1]) + parts[|parts| - 1]
  }

  lemma {:induction false} JoinedCons(part: seq<Byte>, parts: seq<seq<Byte>>)
    ensures Joined([part] + parts) == part + Joined(parts)
  {
    if parts == [] {
      assert [part] + parts == [part] && [part][..0] == [];
    } else {
      var n := |parts| - 1;
      assert ([part] + parts)[..n + 1] == [part] + parts[..n];
      JoinedCons(part, parts[..n]);
    }
  }

  // ---------------------------------------------------- messages on the wire

  /** A message as the protocol defines it, before it is laid out in bytes. */
  datatype Message = Message(kind: Byte, body: seq<Byte>) {
    /** The layout is accepted and its size fits a C `int`. */
    predicate Sendable() {
      && kind >= 0x20
      && (|body| + 4 < LONG_MESSAGE_SIZE || LongAllowed(kind))
      && |body| + 5 < INT_LIMIT
    }

    /** Type, big-endian length that counts itself, body. */
    function Wire(): (r: seq<Byte>)
      requires Sendable()
      ensures |r| == HEADER_SIZE + |body|
    {
      var n := |body| + 4;
      [kind, (n / 0x100_0000) as Byte, (n / 0x1_0000 % 0x100) as Byte, (n / 0x100 % 0x100) as Byte,
       (n % 0x100) as Byte] + body
    }
  }

  function WireAll(ms: seq<Message>): seq<Byte>
    requires forall m :: m in ms ==> m.Sendable()
  {
    if ms == [] then [] else ms[0].Wire() + WireAll(ms[1..])
  }

  /** The callback run over messages, with no bytes to find them in. */
  function Handle<S>(cb: (S, seq<Byte>) -> (S, Verdict), s: S, ms: seq<Message>): Outcome<S>
    requires forall m :: m in ms ==> m.Sendable()
  {
    if ms == [] then Outcome([], s, Ok)
    else
      var (s1, v) := cb(s, ms[0].Wire());
      var piece := if v.Forwards() then ms[0].Wire() else [];
      if v.ToStatus() != Ok then Outcome(piece, s1, v.ToStatus())
      else
        var o := Handle(cb, s1, ms[1..]);
        o.(out := piece + o.out)
  }

  lemma FourDigits(n: nat)
    requires n < 0x1_0000_0000
    ensures 0x100_0000 * (n / 0x100_0000) + 0x1_0000 * (n / 0x1_0000 % 0x100) + 0x100 * (n / 0x100 % 0x100) +
            n % 0x100 == n
  {
    var a, b := n / 0x100, n / 0x1_0000;
    assert b == a / 0x100 && n / 0x100_0000 == b / 0x100;
    assert n == 0x100 * a + n % 0x100 && a == 0x100 * b + a % 0x100;
    assert b == 0x100 * (b / 0x100) + b % 0x100;
  }

  lemma WireHeader(m: Message, d: seq<Byte>)
    requires m.Sendable()
    ensures ReadHeader(m.Wire() + d) == Framed(|m.Wire()|)
  {
    var n := |m.body| + 4;
    var h := m.Wire() + d;
    FourDigits(n);
    assert h[0] == m.kind;
    assert DeclaredLength(h) == n;
    hide DeclaredLength;
  }

  /** The value of digits in base 256, the most significant one first. */
  function BigEndian(digits: seq<Byte>): nat {
    if digits == [] then 0 else 256 * BigEndian(digits[..|digits| - 1]) + digits[|digits| - 1] as nat
  }

  lemma LengthIsBigEndian(h: seq<Byte>)
    requires |h| >= 5
    ensures DeclaredLength(h) == BigEndian(h[1..5])
  {
    var d := h[1..5];
    assert d[..3][..2] == d[..2] && d[..2][..1] == d[..1] && d[..1][..0] == [];
    assert BigEndian(d[..1]) == d[0] as nat;
    assert BigEndian(d[..2]) == 256 * BigEndian(d[..1]) + d[1] as nat;
    assert BigEndian(d[..3]) == 256 * BigEndian(d[..2]) + d[2] as nat;
  }

  /** A header read off its bytes: the type, and a length of four digits that counts itself. */
  lemma HeaderBytes(h: seq<Byte>)
    requires |h| >= 5
    ensures var n := BigEndian(h[1..5]);
            var long := h[0] as char in {'T', 'D', 'd', 'V', 'E', 'N', 'A', 't', 'B', 'P', 'Q'};
            ReadHeader(h) ==
            if n < 4 || h[0] < 32 || (n >= 671_088_640 && !long) then Broken
            else if n >= 2_147_483_647 then TooLong
            else Framed(1 + n)
  {
    LengthIsBigEndian(h);
    hide BigEndian, DeclaredLength;
  }

  /** The layout of a message: its type, four digits for the length of the rest, its body. */
  lemma WireBytes(m: Message)
    requires m.Sendable()
    ensures var w := m.Wire();
            |w| >= 5 && w[0] == m.kind && BigEndian(w[1..5]) == 4 + |m.body| && w[5..] == m.body
  {
    WireHeader(m, []);
    assert m.Wire() + [] == m.Wire();
    LengthIsBigEndian(m.Wire());
    hide BigEndian, DeclaredLength;
  }

  /**
   The beginning of a stream with one packet in it. A complete one is given to the callback, and its bytes go on
   exactly if the callback passes it or detaches on it. Of an incomplete one the part that is there is handled the
   same way, but for the three types that wait until they are complete.
   */
  lemma OnePacket<S>(cb: (S, seq<Byte>) -> (S, Verdict), s: S, c: seq<Byte>)
    requires |c| >= 5 && ReadHeader(c).Framed? && |c| <= ReadHeader(c).total
    ensures var (s1, v) := cb(s, c);
            Whole(cb, s, c) ==
            if |c| < ReadHeader(c).total && c[0] as char in {'S', 'Z', 'E'} then Outcome([], s, Ok)
            else
              match v
              case Pass => Outcome(c, s1, Ok)
              case Skip => Outcome([], s1, Ok)
              case Detach => Outcome(c, s1, Detached)
              case Refuse(code) => Outcome([], s1, Refused(code))
  {
    hide ReadHeader;
    assert [] + c == c && c[..|c|] == c && c[|c|..] == [];
    if |c| == ReadHeader(c).total {
      var (s1, v) := cb(s, c);
      assert Packets(cb, s1, []) == Parsed([], s1, Ok, []);
      assert c + [] == c;
    } else {
      assert Packets(cb, s, c) == Parsed([], s, Ok, c);
    }
  }

  /** Whatever messages are laid out one after another, framing hands exactly them to the callback. */
  lemma {:induction false} FramingRoundTrip<S>(cb: (S, seq<Byte>) -> (S, Verdict), s: S, ms: seq<Message>)
    requires forall m :: m in ms ==> m.Sendable()
    ensures var p := Packets(cb, s, WireAll(ms));
            && Outcome(p.out, p.state, p.status) == Handle(cb, s, ms)
            && (p.status == Ok ==> p.rest == [])
  {
    if ms != [] {
      var w, rest := ms[0].Wire(), WireAll(ms[1..]);
      WireHeader(ms[0], rest);
      WireHeader(ms[0], []);
      assert w + [] == w;
      hide ReadHeader, DeclaredLength;
      ResumePacket(cb, s, w, rest);
      assert w[..|w|] == w && w[|w|..] == [] && [] + rest == rest;
      FramingRoundTrip(cb, cb(s, w).0, ms[1..]);
    }
  }
}
