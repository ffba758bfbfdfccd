/** Frames on the command connection: libfranka/common/include/research_interface/robot/service_types.h. */
module TcpFrames {

  type Byte = x: int | 0 <= x < 256

  const HEADER_SIZE := 12

  // A packed, little-endian uint32_t.
  function U32(b: seq<Byte>, at: nat): nat
    requires at + 4 <= |b|
  {
    b[at] as int + 0x100 * b[at + 1] as int + 0x1_0000 * b[at + 2] as int + 0x100_0000 * b[at + 3] as int
  }

  function EncodeU32(n: nat): (b: seq<Byte>)
    requires n < 0x1_0000_0000
    ensures |b| == 4
  {
    [n % 0x100, n / 0x100 % 0x100, n / 0x1_0000 % 0x100, n / 0x100_0000]
  }

  function FrameId(b: seq<Byte>): nat
    requires |b| >= HEADER_SIZE
  {
    U32(b, 4)
  }

  function FrameSize(b: seq<Byte>): nat
    requires |b| >= HEADER_SIZE
  {
    U32(b, 8)
  }

  function EncodeHeader(command: nat, id: nat, size: nat): (b: seq<Byte>)
    requires command < 0x1_0000_0000 && id < 0x1_0000_0000 && size < 0x1_0000_0000
    ensures |b| == HEADER_SIZE
  {
    EncodeU32(command) + EncodeU32(id) + EncodeU32(size)
  }

  // A frame as the sender builds it: the header announces the whole length.
  ghost predicate IsFrame(f: seq<Byte>) { |f| >= HEADER_SIZE && FrameSize(f) == |f| }

  lemma DigitsAddUp(n: nat)
    requires n < 0x1_0000_0000
    ensures n % 0x100 + 0x100 * (n / 0x100 % 0x100) + 0x1_0000 * (n / 0x1_0000 % 0x100) + 0x100_0000 * (n / 0x100_0000)
            == n
  {
  }

  // Encoding and decoding a header are inverse.
  lemma HeaderRoundTrip(command: nat, id: nat, size: nat, payload: seq<Byte>)
    requires command < 0x1_0000_0000 && id < 0x1_0000_0000 && size < 0x1_0000_0000
    ensures var b := EncodeHeader(command, id, size) + payload;
            U32(b, 0) == command && FrameId(b) == id && FrameSize(b) == size
  {
    DigitsAddUp(command);
    DigitsAddUp(id);
    DigitsAddUp(size);
  }

  // Where the bytes of a header are: command, id and size, the lowest byte first.
  lemma HeaderLayout(command: nat, id: nat, size: nat)
    requires command < 0x1_0000_0000 && id < 0x1_0000_0000 && size < 0x1_0000_0000
    ensures var b := EncodeHeader(command, id, size);
            && (b[0], b[1], b[2], b[3])
               == (command % 256, command / 256 % 256, command / 65536 % 256, command / 16777216 % 256)
            && (b[4], b[5], b[6], b[7]) == (id % 256, id / 256 % 256, id / 65536 % 256, id / 16777216 % 256)
            && (b[8], b[9], b[10], b[11]) == (size % 256, size / 256 % 256, size / 65536 % 256, size / 16777216 % 256)
  {
  }

  // ----- The whole-stream parser: what a byte stream means -----

  datatype Parse = Parse(frames: seq<seq<Byte>>, rest: seq<Byte>, malformed: bool)

  function ParseStream(s: seq<Byte>): Parse {
    if |s| < HEADER_SIZE then Parse([], s, false)
    else if FrameSize(s) < HEADER_SIZE then Parse([], s, true)
    else if |s| < FrameSize(s) then Parse([], s, false)
    else
      var p := ParseStream(s[FrameSize(s)..]);
      Parse([s[..FrameSize(s)]] + p.frames, p.rest, p.malformed)
  }

  function Concat(frames: seq<seq<Byte>>): seq<Byte> {
    if frames == [] then [] else frames[0] + Concat(frames[1..])
  }

  lemma SizeOfPrefix(s: seq<Byte>, n: nat)
    requires HEADER_SIZE <= n <= |s|
    ensures FrameSize(s[..n]) == FrameSize(s)
  {
  }

  lemma SizeOfConcatenation(s: seq<Byte>, t: seq<Byte>)
    requires HEADER_SIZE <= |s|
    ensures FrameSize(s + t) == FrameSize(s)
  {
  }

  // Nothing is lost and nothing invented, and the parser only returns frames.
  lemma {:induction false} ParseConserves(s: seq<Byte>)
    ensures var p := ParseStream(s);
            && Concat(p.frames) + p.rest == s
            && (forall f :: f in p.frames ==> IsFrame(f))
  {
    hide FrameSize;
    if |s| >= HEADER_SIZE && HEADER_SIZE <= FrameSize(s) <= |s| {
      var n := FrameSize(s);
      ParseConserves(s[n..]);
      SizeOfPrefix(s, n);
      AssembleParse(s, n, ParseStream(s[n..]));
    }
  }

  lemma AssembleParse(s: seq<Byte>, n: nat, q: Parse)
    requires n <= |s| && Concat(q.frames) + q.rest == s[n..]
    ensures Concat([s[..n]] + q.frames) + q.rest == s
  {
    assert ([s[..n]] + q.frames)[1..] == q.frames;
    assert s[..n] + s[n..] == s;
  }

  // The parser recovers exactly the frames that were written one after another.
  lemma {:induction false} ParseRecovers(frames: seq<seq<Byte>>)
    requires forall f :: f in frames ==> IsFrame(f)
    ensures ParseStream(Concat(frames)) == Parse(frames, [], false)
  {
    hide FrameSize;
    if frames != [] {
      var f, s := frames[0], Concat(frames);
      assert f in frames && IsFrame(f);
      ParseRecovers(frames[1..]);
      assert s[..|f|] == f && s[|f|..] == Concat(frames[1..]);
      SizeOfConcatenation(f, Concat(frames[1..]));
    }
  }

  // Parsing can be resumed: what was parsed so far does not depend on what follows.
  lemma {:induction false} ParseAppend(s: seq<Byte>, t: seq<Byte>)
    requires !ParseStream(s).malformed
    ensures var p, q := ParseStream(s), ParseStream(ParseStream(s).rest + t);
            ParseStream(s + t) == Parse(p.frames + q.frames, q.rest, q.malformed)
    decreases |s|
  {
    hide FrameSize;
    if |s| < HEADER_SIZE || FrameSize(s) > |s| {
      assert ParseStream(s).frames == [] && ParseStream(s).rest == s;
    } else {
      var n := FrameSize(s);
      SizeOfConcatenation(s, t);
      assert (s + t)[..n] == s[..n] && (s + t)[n..] == s[n..] + t;
      ParseAppend(s[n..], t);
      var p, q := ParseStream(s[n..]), ParseStream(ParseStream(s[n..]).rest + t);
      assert [s[..n]] + (p.frames + q.frames) == [s[..n]] + p.frames + q.frames;
    }
  }

  // A prefix of a stream yields a prefix of its frames.
  lemma PrefixYieldsPrefix(s: seq<Byte>, t: seq<Byte>)
    requires !ParseStream(s).malformed
    ensures ParseStream(s).frames <= ParseStream(s + t).frames
  {
    ParseAppend(s, t);
  }

  // ----- The mailbox of responses, keyed by command id -----

  datatype Event = Arrived(frame: seq<Byte>) | Claimed(id: nat)

  ghost predicate WellFormed(h: seq<Event>) { forall e :: e in h && e.Arrived? ==> |e.frame| >= HEADER_SIZE }

  // unordered_map::emplace keeps the entry that is already there.
  function Mailbox(h: seq<Event>): map<nat, seq<Byte>>
    requires WellFormed(h)
  {
    if h == [] then map[]
    else
      var m, e := Mailbox(h[..|h| - 1]), h[|h| - 1];
      match e
      case Arrived(f) => if FrameId(f) in m then m else m[FrameId(f) := f]
      case Claimed(id) => m - {id}
  }

  function ArrivedFrames(h: seq<Event>): seq<seq<Byte>> {
    if h == [] then []
    else
      var e := h[|h| - 1];
      ArrivedFrames(h[..|h| - 1]) + if e.Arrived? then [e.frame] else []
  }

  // The responses given to callers, in order.
  function HandedOut(h: seq<Event>): seq<seq<Byte>>
    requires WellFormed(h)
  {
    if h == [] then []
    else
      var m, e := Mailbox(h[..|h| - 1]), h[|h| - 1];
      HandedOut(h[..|h| - 1]) + if e.Claimed? && e.id in m then [m[e.id]] else []
  }

  // The frames that found an unclaimed one of the same id.
  function Dropped(h: seq<Event>): seq<seq<Byte>>
    requires WellFormed(h)
  {
    if h == [] then []
    else
      var m, e := Mailbox(h[..|h| - 1]), h[|h| - 1];
      Dropped(h[..|h| - 1]) + if e.Arrived? && FrameId(e.frame) in m then [e.frame] else []
  }

  function Waiting(h: seq<Event>, f: seq<Byte>): nat
    requires WellFormed(h) && |f| >= HEADER_SIZE
  {
    if FrameId(f) in Mailbox(h) && Mailbox(h)[FrameId(f)] == f then 1 else 0
  }

  // Every stored response lies under its own id.
  lemma {:induction false} StoredUnderOwnId(h: seq<Event>)
    requires WellFormed(h)
    ensures forall id :: id in Mailbox(h) ==> |Mailbox(h)[id]| >= HEADER_SIZE && FrameId(Mailbox(h)[id]) == id
  {
    if h != [] {
      StoredUnderOwnId(h[..|h| - 1]);
    }
  }

  // Conservation: every frame that arrived was handed out, dropped as a
  // duplicate, or is waiting, and each copy just once.
  lemma {:induction false} MailboxConserves(h: seq<Event>, f: seq<Byte>)
    requires WellFormed(h) && |f| >= HEADER_SIZE
    ensures multiset(ArrivedFrames(h))[f] == multiset(HandedOut(h))[f] + multiset(Dropped(h))[f] + Waiting(h, f)
  {
    if h == [] {
    } else {
      hide ArrivedFrames, HandedOut, Dropped, Waiting, FrameId, Mailbox;
      MailboxConserves(h[..|h| - 1], f);
      ArrivalCounts(h, f);
      WaitingCounts(h, f);
    }
  }

  // How the last event changes what is waiting.
  lemma WaitingCounts(h: seq<Event>, f: seq<Byte>)
    requires WellFormed(h) && h != [] && |f| >= HEADER_SIZE
    ensures var g, e := h[..|h| - 1], h[|h| - 1];
            var m := Mailbox(g);
            Waiting(h, f) + (if e.Claimed? && e.id in m && m[e.id] == f then 1 else 0)
            + (if e.Arrived? && FrameId(e.frame) in m && e.frame == f then 1 else 0)
            == Waiting(g, f) + (if e.Arrived? && e.frame == f then 1 else 0)
  {
    hide FrameId;
    StoredUnderOwnId(h[..|h| - 1]);
  }

  // How the last event changes the three counts.
  lemma ArrivalCounts(h: seq<Event>, f: seq<Byte>)
    requires WellFormed(h) && h != []
    ensures var g, e := h[..|h| - 1], h[|h| - 1];
            var m := Mailbox(g);
            && multiset(ArrivedFrames(h))[f]
               == multiset(ArrivedFrames(g))[f] + (if e.Arrived? && e.frame == f then 1 else 0)
            && multiset(HandedOut(h))[f]
               == multiset(HandedOut(g))[f] + (if e.Claimed? && e.id in m && m[e.id] == f then 1 else 0)
            && multiset(Dropped(h))[f]
               == multiset(Dropped(g))[f] + (if e.Arrived? && FrameId(e.frame) in m && e.frame == f then 1 else 0)
  {
    hide FrameId, Mailbox;
    var g, e := h[..|h| - 1], h[|h| - 1];
    var m := Mailbox(g);
    CountAppend(ArrivedFrames(g), if e.Arrived? then [e.frame] else [], f);
    CountAppend(HandedOut(g), if e.Claimed? && e.id in m then [m[e.id]] else [], f);
    CountAppend(Dropped(g), if e.Arrived? && FrameId(e.frame) in m then [e.frame] else [], f);
  }

  lemma CountAppend(a: seq<seq<Byte>>, b: seq<seq<Byte>>, f: seq<Byte>)
    requires |b| <= 1
    ensures multiset(a + b)[f] == multiset(a)[f] + if b == [f] then 1 else 0
  {
    if |b| == 1 {
      assert b == [b[0]];
    } else {
      assert a + b == a;
    }
  }

  ghost predicate DistinctIds(frames: seq<seq<Byte>>) {
    && (forall f :: f in frames ==> |f| >= HEADER_SIZE)
    && (forall i, j :: 0 <= i < j < |frames| ==> FrameId(frames[i]) != FrameId(frames[j]))
  }

  lemma {:induction false} StoredHasArrived(h: seq<Event>, id: nat)
    requires WellFormed(h) && id in Mailbox(h)
    ensures Mailbox(h)[id] in ArrivedFrames(h)
  {
    if h != [] {
      var g := h[..|h| - 1];
      if id in Mailbox(g) && Mailbox(h)[id] == Mailbox(g)[id] {
        StoredHasArrived(g, id);
      }
    }
  }

  // If no command id repeats, no response is dropped, so each one that arrived is
  // handed out exactly once or still waiting.
  lemma {:induction false} NothingDroppedWithDistinctIds(h: seq<Event>)
    requires WellFormed(h) && DistinctIds(ArrivedFrames(h))
    ensures Dropped(h) == []
  {
    if h != [] {
      var g, e := h[..|h| - 1], h[|h| - 1];
      var a, b := ArrivedFrames(g), ArrivedFrames(h);
      assert forall i :: 0 <= i < |a| ==> a[i] == b[i];
      NothingDroppedWithDistinctIds(g);
      if e.Arrived? {
        FreshId(a, e.frame);
        if FrameId(e.frame) in Mailbox(g) {
          StoredUnderOwnId(g);
          StoredHasArrived(g, FrameId(e.frame));
        }
      }
    }
  }

  lemma FreshId(frames: seq<seq<Byte>>, last: seq<Byte>)
    requires DistinctIds(frames + [last])
    ensures forall f :: f in frames ==> |f| >= HEADER_SIZE && FrameId(f) != FrameId(last)
  {
    var all := frames + [last];
    forall f | f in frames ensures |f| >= HEADER_SIZE && FrameId(f) != FrameId(last) {
      var i :| 0 <= i < |frames| && frames[i] == f;
      assert all[i] == f && all[|frames|] == last;
    }
  }
}
