// Frames on a byte stream: a masked body behind a ten-byte header, in a receive buffer that compacts.
module Frames {
  import opened Bytes

  const MAX_BUFFER_SIZE: nat := 8192
  const HEAD_LENGTH: nat := 10
  const DEFAULT_VERSION: nat := 1256
  // "xxmp"
  const VERIFY_KEY: seq<byte> := [0x78, 0x78, 0x6D, 0x70]

  // ---- Masking

  function Pow2(k: nat): nat {
    if k == 0 then 1 else 2 * Pow2(k - 1)
  }

  // Exclusive or of the k low-order bits.
  function XorBits(a: nat, b: nat, k: nat): (c: nat)
    ensures c < Pow2(k)
  {
    if k == 0 then 0 else 2 * XorBits(a / 2, b / 2, k - 1) + (if a % 2 != b % 2 then 1 else 0)
  }

  lemma {:induction false} XorBitsTwice(a: nat, b: nat, k: nat)
    requires a < Pow2(k)
    ensures XorBits(XorBits(a, b, k), b, k) == a
  {
    if k > 0 {
      XorBitsTwice(a / 2, b / 2, k - 1);
      var c := XorBits(a, b, k);
      assert c / 2 == XorBits(a / 2, b / 2, k - 1) && (c % 2 == 1 <==> a % 2 != b % 2);
    }
  }

  function Xor(a: byte, b: byte): (c: byte) {
    PowEight();
    XorBits(a, b, 8)
  }

  lemma PowEight()
    ensures Pow2(8) == 256
  {
    assert Pow2(4) == 16;
  }

  lemma XorTwice(a: byte, b: byte)
    ensures Xor(Xor(a, b), b) == a
  {
    PowEight();
    XorBitsTwice(a, b, 8);
  }

  // The four bytes of srand: the product is taken in unsigned 32-bit arithmetic.
  function MaskKey(version: nat, size: nat): (key: seq<byte>)
    requires version > 0
    ensures |key| == 4
  {
    LittleEndian(FromLittleEndian(VERIFY_KEY) % version * size % TWO_32, 4)
  }

  function Mask(key: seq<byte>, data: seq<byte>): (m: seq<byte>)
    requires |key| == 4
    ensures |m| == |data|
  {
    seq(|data|, i requires 0 <= i < |data| => Xor(data[i], key[i % 4]))
  }

  lemma MaskTwice(key: seq<byte>, data: seq<byte>)
    requires |key| == 4
    ensures Mask(key, Mask(key, data)) == data
  {
    forall i | 0 <= i < |data| ensures Mask(key, Mask(key, data))[i] == data[i] {
      XorTwice(data[i], key[i % 4]);
    }
  }

  // The masking loop: groups of at most four bytes, each xor-ed as one int.
  method MaskLoop(src: seq<byte>, key: seq<byte>) returns (out: array<byte>)
    requires |key| == 4
    ensures fresh(out) && out[..] == Mask(key, src)
  {
    hide Xor, Mask, Aligned;
    out := new byte[|src|];
    var count := 0;
    NextGroup(0);
    while count < |src|
      invariant 0 <= count <= |src| && (count < |src| ==> Aligned(count))
      invariant out[..count] == Mask(key, src)[..count]
    {
      var a := if |src| - count < 4 then |src| - count else 4;
      NextGroup(count);
      MasksGroup(key, src, count, a);
      MaskGroup(out, src, key, count, a);
      assert out[..count + a] == out[..count] + out[count..count + a];
      count := count + a;
    }
  }

  method MaskGroup(out: array<byte>, src: seq<byte>, key: seq<byte>, count: nat, a: nat)
    requires |key| == 4 && a <= 4 && count + a <= |src| == out.Length
    modifies out
    ensures out[..count] == old(out[..count]) && out[count..count + a] == Group(key, src, count, a)
  {
    hide Xor;
    forall i | 0 <= i < a {
      out[count + i] := Xor(src[count + i], key[i]);
    }
  }

  function Group(key: seq<byte>, src: seq<byte>, count: nat, a: nat): seq<byte>
    requires |key| == 4 && a <= 4 && count + a <= |src|
  {
    seq(a, i requires 0 <= i < a => Xor(src[count + i], key[i]))
  }

  // The start of a group of four.
  predicate Aligned(count: nat) {
    count % 4 == 0
  }

  lemma NextGroup(count: nat)
    ensures Aligned(0) && (Aligned(count) ==> Aligned(count + 4))
  {
  }

  lemma MaskedByte(key: seq<byte>, src: seq<byte>, count: nat, i: nat)
    requires |key| == 4 && Aligned(count) && i < 4 && count + i < |src|
    ensures Mask(key, src)[count + i] == Xor(src[count + i], key[i])
  {
    hide Xor;
    assert (count + i) % 4 == i;
  }

  lemma MasksGroup(key: seq<byte>, src: seq<byte>, count: nat, a: nat)
    requires |key| == 4 && a <= 4 && count + a <= |src| && Aligned(count)
    ensures Mask(key, src)[..count + a] == Mask(key, src)[..count] + Group(key, src, count, a)
  {
    hide Xor, Mask, Aligned;
    forall i | 0 <= i < a ensures Mask(key, src)[count + i] == Group(key, src, count, a)[i] {
      MaskedByte(key, src, count, i);
    }
  }

  // ---- Frames

  function BigEndian(n: nat, k: nat): (s: seq<byte>)
    ensures |s| == k
  {
    Reverse(LittleEndian(n, k))
  }

  function FromBigEndian(s: seq<byte>): nat {
    FromLittleEndian(Reverse(s))
  }

  function Header(size: nat): (s: seq<byte>)
    ensures |s| == HEAD_LENGTH
  {
    VERIFY_KEY + (BigEndian(DEFAULT_VERSION, 2) + BigEndian(size, 4))
  }

  function Frame(body: seq<byte>): (s: seq<byte>)
    ensures |s| == HEAD_LENGTH + |body|
  {
    Header(|body|) + Mask(MaskKey(DEFAULT_VERSION, |body|), body)
  }

  datatype Outcome = Wait | InvalidSync | DivisionFault | Body(body: seq<byte>)

  // What parseFromBuffer does to the unread window.
  function Parse(w: seq<byte>): (r: (Outcome, seq<byte>)) {
    if |w| < HEAD_LENGTH then (Wait, w)
    else if w[..4] != VERIFY_KEY then (InvalidSync, w)
    else
      var version, size := FromBigEndian(w[4..6]), FromBigEndian(w[6..10]);
      if |w| - HEAD_LENGTH < size then (Wait, w)
      else if version == 0 then (DivisionFault, w[HEAD_LENGTH..])
      else (Body(Mask(MaskKey(version, size), w[HEAD_LENGTH..HEAD_LENGTH + size])), w[HEAD_LENGTH + size..])
  }

  lemma BigEndianRoundTrip(n: nat, k: nat)
    requires n < Pow256(k)
    ensures FromBigEndian(BigEndian(n, k)) == n
  {
    ReverseTwice(LittleEndian(n, k));
    LittleEndianRoundTrip(n, k);
  }

  // A window that starts with the header of a body, or less.
  lemma HeaderFields(size: nat, w: seq<byte>)
    requires size < TWO_32 && HEAD_LENGTH <= |w| && w[..HEAD_LENGTH] == Header(size)
    ensures w[..4] == VERIFY_KEY
    ensures FromBigEndian(w[4..6]) == DEFAULT_VERSION && FromBigEndian(w[6..10]) == size
  {
    Pow256Four();
    assert Pow256(2) == 0x1_0000;
    BigEndianRoundTrip(DEFAULT_VERSION, 2);
    BigEndianRoundTrip(size, 4);
    hide LittleEndian, FromLittleEndian, Reverse, BigEndian, FromBigEndian;
    var h := w[..HEAD_LENGTH];
    assert h[4..6] == (BigEndian(DEFAULT_VERSION, 2) + BigEndian(size, 4))[..2] == BigEndian(DEFAULT_VERSION, 2);
    assert h[6..10] == (BigEndian(DEFAULT_VERSION, 2) + BigEndian(size, 4))[2..] == BigEndian(size, 4);
    assert h[..4] == w[..4] && h[4..6] == w[4..6] && h[6..10] == w[6..10];
  }

  // A complete frame at the front is taken off whole and unmasked.
  lemma ParseFrame(body: seq<byte>, rest: seq<byte>)
    requires |body| < TWO_32
    ensures Parse(Frame(body) + rest) == (Body(body), rest)
  {
    var w := Frame(body) + rest;
    assert w[..HEAD_LENGTH] == Header(|body|);
    HeaderFields(|body|, w);
    hide Header, FromBigEndian, MaskKey;
    var key := MaskKey(DEFAULT_VERSION, |body|);
    MaskTwice(key, body);
    assert w[HEAD_LENGTH..HEAD_LENGTH + |body|] == Mask(key, body);
    assert w[HEAD_LENGTH + |body|..] == rest;
  }

  // Less than a frame is left where it is.
  lemma ParsePartial(body: seq<byte>, w: seq<byte>)
    requires |body| < TWO_32 && |w| < |Frame(body)| && w == Frame(body)[..|w|]
    ensures Parse(w) == (Wait, w)
  {
    if |w| >= HEAD_LENGTH {
      assert w[..HEAD_LENGTH] == Frame(body)[..HEAD_LENGTH] == Header(|body|);
      HeaderFields(|body|, w);
    }
  }

  function Stream(bodies: seq<seq<byte>>): seq<byte> {
    if bodies == [] then [] else Frame(bodies[0]) + Stream(bodies[1..])
  }

  // ---- Runs: chunks are added and frames parsed in any order

  datatype Event = Add(chunk: seq<byte>) | TryParse

  datatype Session = Session(window: seq<byte>, delivered: seq<byte>, bodies: seq<seq<byte>>, faulty: bool)

  // Add succeeds exactly when the window and the chunk together stay below the buffer size.
  function Step(st: Session, e: Event): Session {
    match e
    case Add(chunk) =>
      if |st.window| + |chunk| < MAX_BUFFER_SIZE
      then st.(window := st.window + chunk, delivered := st.delivered + chunk) else st
    case TryParse =>
      var (outcome, rest) := Parse(st.window);
      st.(window := rest,
      bodies := if outcome.Body? then st.bodies + [outcome.body] else st.bodies,
      faulty := st.faulty || outcome.InvalidSync? || outcome.DivisionFault?)
  }

  function Run(st: Session, events: seq<Event>): Session {
    if events == [] then st else Step(Run(st, events[..|events| - 1]), events[|events| - 1])
  }

  const FRESH: Session := Session([], [], [], false)

  // What was delivered is what was consumed, in order, followed by the unread window.
  ghost predicate Faithful(st: Session, sent: seq<seq<byte>>) {
    && !st.faulty
    && |st.bodies| <= |sent| && st.bodies == sent[..|st.bodies|]
    && Stream(st.bodies) + st.window == st.delivered
  }

  ghost predicate IsPrefix(a: seq<byte>, b: seq<byte>) {
    |a| <= |b| && a == b[..|a|]
  }

  lemma {:induction false} StreamConcat(a: seq<seq<byte>>, b: seq<seq<byte>>)
    ensures Stream(a + b) == Stream(a) + Stream(b)
  {
    hide Frame;
    if a == [] {
      assert a + b == b;
    } else {
      assert (a + b)[1..] == a[1..] + b;
      StreamConcat(a[1..], b);
    }
  }

  // The unread window is the start of the frames still to be taken off.
  lemma WindowIsAhead(st: Session, sent: seq<seq<byte>>)
    requires Faithful(st, sent) && IsPrefix(st.delivered, Stream(sent))
    ensures IsPrefix(st.window, Stream(sent[|st.bodies|..]))
  {
    hide Stream;
    var k := |st.bodies|;
    StreamConcat(sent[..k], sent[k..]);
    assert sent == sent[..k] + sent[k..];
    assert st.window == st.delivered[|Stream(st.bodies)|..];
  }

  // One parse of a faithful session takes the next body off, or waits for it.
  lemma ParseIsFaithful(st: Session, sent: seq<seq<byte>>)
    requires Faithful(st, sent) && IsPrefix(st.delivered, Stream(sent))
    requires forall b :: b in sent ==> |b| < TWO_32
    ensures Faithful(Step(st, TryParse), sent)
    ensures var k := |st.bodies|;
            |Step(st, TryParse).bodies| == if k < |sent| && |st.window| >= |Frame(sent[k])| then k + 1 else k
  {
    hide Frame, Parse, Stream;
    var k := |st.bodies|;
    EmptyStream();
    WindowIsAhead(st, sent);
    var ahead := Stream(sent[k..]);
    if k == |sent| {
      assert ahead == [];
      ParseNothing();
      assert st.window == [];
    } else {
      var f, later := Frame(sent[k]), Stream(sent[k + 1..]);
      assert sent[k] in sent && sent[k..] == [sent[k]] + sent[k + 1..];
      StreamConcat([sent[k]], sent[k + 1..]);
      OneFrame(sent[k]);
      if |st.window| >= |f| {
        NextIsTaken(st, sent);
      } else {
        assert st.window == f[..|st.window|];
        ParsePartial(sent[k], st.window);
      }
    }
  }

  lemma NextIsTaken(st: Session, sent: seq<seq<byte>>)
    requires Faithful(st, sent) && |st.bodies| < |sent|
    requires var body := sent[|st.bodies|]; |body| < TWO_32 && IsPrefix(Frame(body), st.window)
    ensures Faithful(Step(st, TryParse), sent) && |Step(st, TryParse).bodies| == |st.bodies| + 1
  {
    hide Frame, Parse, Stream;
    var k := |st.bodies|;
    var rest := st.window[|Frame(sent[k])|..];
    assert st.window == Frame(sent[k]) + rest;
    ParseFrame(sent[k], rest);
    StreamConcat(st.bodies, [sent[k]]);
    OneFrame(sent[k]);
    assert sent[..k + 1] == sent[..k] + [sent[k]];
  }

  lemma OneFrame(body: seq<byte>)
    ensures Stream([body]) == Frame(body)
  {
    hide Frame;
    var rest: seq<seq<byte>> := [body][1..];
    assert rest == [];
  }

  lemma ParseNothing()
    ensures Parse([]) == (Wait, [])
  {
  }

  lemma {:induction false} DeliveredGrows(st: Session, events: seq<Event>)
    ensures IsPrefix(st.delivered, Run(st, events).delivered)
    decreases |events|
  {
    hide Parse;
    if events != [] {
      DeliveredGrows(st, events[..|events| - 1]);
    }
  }

  // If the bytes delivered so far come from a stream of frames, then whatever the chunking and whenever
  // frames were parsed, the bodies are the first payloads sent, in order, each once, and consumed frames
  // plus the unread window are the bytes delivered; no parse failed.
  lemma {:induction false} RunIsFaithful(events: seq<Event>, sent: seq<seq<byte>>)
    requires forall b :: b in sent ==> |b| < TWO_32
    requires IsPrefix(Run(FRESH, events).delivered, Stream(sent))
    ensures Faithful(Run(FRESH, events), sent)
    decreases |events|
  {
    hide Parse, Stream, Step;
    if events == [] {
      EmptyStream();
    } else {
      var before, e := Run(FRESH, events[..|events| - 1]), events[|events| - 1];
      StepDelivers(before, e, Stream(sent));
      RunIsFaithful(events[..|events| - 1], sent);
      match e
      case Add(chunk) => AddIsFaithful(before, chunk, sent);
      case TryParse => ParseIsFaithful(before, sent);
    }
  }

  lemma StepDelivers(st: Session, e: Event, stream: seq<byte>)
    requires IsPrefix(Step(st, e).delivered, stream)
    ensures IsPrefix(st.delivered, stream)
  {
    hide Parse;
  }

  lemma AddIsFaithful(st: Session, chunk: seq<byte>, sent: seq<seq<byte>>)
    requires Faithful(st, sent)
    ensures Faithful(Step(st, Add(chunk)), sent)
  {
    hide Stream;
    assert Stream(st.bodies) + st.window + chunk == Stream(st.bodies) + (st.window + chunk);
  }

  lemma EmptyStream()
    ensures Stream([]) == []
  {
  }

  // Nothing is held back: once all frames are delivered, as many parses as there are frames left yield
  // every payload and empty the window.
  lemma {:induction false} EverythingArrives(st: Session, sent: seq<seq<byte>>)
    requires Faithful(st, sent) && st.delivered == Stream(sent)
    requires forall b :: b in sent ==> |b| < TWO_32
    ensures var end := Run(st, seq(|sent| - |st.bodies|, _ => TryParse));
            end.bodies == sent && end.window == [] && !end.faulty
  {
    ManyParses(st, sent, |sent| - |st.bodies|);
  }

  lemma {:induction false} ManyParses(st: Session, sent: seq<seq<byte>>, n: nat)
    requires Faithful(st, sent) && st.delivered == Stream(sent) && |st.bodies| + n <= |sent|
    requires forall b :: b in sent ==> |b| < TWO_32
    ensures var now := Run(st, seq(n, _ => TryParse));
            Faithful(now, sent) && now.delivered == Stream(sent) && |now.bodies| == |st.bodies| + n
            && (|now.bodies| == |sent| ==> now.window == [])
    decreases n
  {
    hide Parse, Frame;
    var events := seq(n, _ => TryParse);
    if n > 0 {
      assert events[..n - 1] == seq(n - 1, _ => TryParse);
      ManyParses(st, sent, n - 1);
      var before := Run(st, events[..n - 1]);
      var k := |before.bodies|;
      NextIsComplete(before, sent);
      ParseIsFaithful(before, sent);
    }
    var now := Run(st, events);
    if |now.bodies| == |sent| {
      assert sent[..|sent|] == sent;
    }
  }

  lemma NextIsComplete(st: Session, sent: seq<seq<byte>>)
    requires Faithful(st, sent) && st.delivered == Stream(sent) && |st.bodies| < |sent|
    ensures |st.window| >= |Frame(sent[|st.bodies|])|
  {
    hide Frame;
    var k := |st.bodies|;
    StreamConcat(sent[..k], sent[k..]);
    assert sent == sent[..k] + sent[k..];
  }

  // The window never reaches the buffer size, so a frame of that size or more never arrives.
  lemma {:induction false} OnlySmallFramesArrive(events: seq<Event>)
    ensures |Run(FRESH, events).window| < MAX_BUFFER_SIZE
    ensures forall b :: b in Run(FRESH, events).bodies ==> |Frame(b)| < MAX_BUFFER_SIZE
    decreases |events|
  {
    hide Mask, MaskKey, FromBigEndian, Header;
    if events != [] {
      OnlySmallFramesArrive(events[..|events| - 1]);
    }
  }

  // Adding and parsing one frame after the other.
  function OneByOne(sent: seq<seq<byte>>): seq<Event> {
    if sent == [] then [] else OneByOne(sent[..|sent| - 1]) + [Add(Frame(sent[|sent| - 1])), TryParse]
  }

  lemma {:induction false} OneByOneArrives(sent: seq<seq<byte>>)
    requires forall b :: b in sent ==> |Frame(b)| < MAX_BUFFER_SIZE
    ensures var end := Run(FRESH, OneByOne(sent));
            end.bodies == sent && end.window == [] && !end.faulty
  {
    hide Step, Frame, Run;
    NoEvents();
    if sent != [] {
      var before, b := sent[..|sent| - 1], sent[|sent| - 1];
      OneByOneArrives(before);
      TwoEvents(OneByOne(before), Add(Frame(b)), TryParse);
      SmallBody(b);
      TakeOne(Run(FRESH, OneByOne(before)), b);
      assert sent == before + [b];
    }
  }

  lemma NoEvents()
    ensures Run(FRESH, []) == FRESH
  {
  }

  lemma TwoEvents(events: seq<Event>, e: Event, f: Event)
    ensures Run(FRESH, events + [e, f]) == Step(Step(Run(FRESH, events), e), f)
  {
    hide Step;
    var all := events + [e, f];
    assert all[..|all| - 1] == events + [e] && (events + [e])[..|events|] == events;
  }

  lemma TakeOne(st: Session, b: seq<byte>)
    requires st.window == [] && |b| < TWO_32 && |Frame(b)| < MAX_BUFFER_SIZE
    ensures var end := Step(Step(st, Add(Frame(b))), TryParse);
            end.bodies == st.bodies + [b] && end.window == [] && end.faulty == st.faulty
  {
    hide Parse, Frame;
    assert [] + Frame(b) == Frame(b) == Frame(b) + [];
    ParseFrame(b, []);
  }

  lemma SmallBody(b: seq<byte>)
    requires |Frame(b)| < MAX_BUFFER_SIZE
    ensures |b| < TWO_32
  {
  }

  // Some run delivers the payloads if and only if every frame is below the buffer size.
  lemma Deliverable(sent: seq<seq<byte>>)
    ensures (exists events :: Run(FRESH, events).bodies == sent)
         <==> forall b :: b in sent ==> |Frame(b)| < 8192
  {
    hide Run, Frame;
    if forall b :: b in sent ==> |Frame(b)| < MAX_BUFFER_SIZE {
      OneByOneArrives(sent);
      assert Run(FRESH, OneByOne(sent)).bodies == sent;
    }
    forall events | Run(FRESH, events).bodies == sent ensures forall b :: b in sent ==> |Frame(b)| < MAX_BUFFER_SIZE {
      OnlySmallFramesArrive(events);
    }
  }
}
