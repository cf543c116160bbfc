/** The in-order forwarder of a push stream: a 2048-slot packet cache keyed by 16-bit sequence
    numbers, a forwarding frontier, and the key-frame restart.  Functions on values say what every
    operation does; class PushStream is the object with its in-place cache and its loops. */
module PushStream {
  import opened Options
  import opened SeqNum

  /** `ts` is the arrival time in milliseconds; never negative. */
  datatype Packet = Packet(seqNum: Seq16, ts: nat, payload: seq<int>)

  type Slot = Option<Packet>
  type Cache = c: seq<Slot> | |c| == 2048 witness EmptySlots(2048)

  function EmptySlots(n: nat): (c: seq<Slot>)
    ensures |c| == n && forall i :: 0 <= i < n ==> c[i] == None
  {
    seq(n, _ => None)
  }

  function Find(c: Cache, s: Seq16): Slot {
    var slot := c[s % 2048];
    if slot.Some? && slot.value.seqNum == s then slot else None
  }

  /** The lookup for the number `j` steps above `s`. */
  function Probe(c: Cache, s: int, j: int): Slot {
    Find(c, Low(s + j))
  }

  function Store(c: Cache, p: Packet): Cache {
    if Find(c, p.seqNum).Some? then c else c[p.seqNum % 2048 := Some(p)]
  }

  /** Number of cache hits met when walking from `s` upward, at most `limit` of them. */
  function RunLength(c: Cache, s: Seq16, limit: nat): (k: nat)
    ensures k <= limit
    ensures k < limit ==> Probe(c, s, k).None?
    ensures forall j :: 0 <= j < k ==> Probe(c, s, j).Some?
    decreases |c|, limit
  {
    if limit == 0 || Find(c, s).None? then 0
    else
      var k := 1 + RunLength(c, Low(s + 1), limit - 1);
      assert forall j :: 1 <= j <= k ==> Probe(c, s, j) == Probe(c, Low(s + 1), j - 1);
      k
  }

  /** Both release loops give up after 2049 probes; `Released` is what they hand on. */
  function Released(c: Cache, s: Seq16): (ps: seq<Packet>)
    ensures |ps| == RunLength(c, s, 2049)
    ensures forall j :: 0 <= j < |ps| ==> Probe(c, s, j) == Some(ps[j])
  {
    seq(RunLength(c, s, 2049), j requires 0 <= j < RunLength(c, s, 2049) => Probe(c, s, j).value)
  }

  /** How many numbers lie in the wire range first..last. */
  function GapLength(first: Seq16, last: Seq16): nat {
    if AheadOrAt(last, first) then ForwardDiff(first, last) + 1 else 0
  }

  /** Slot `i` belongs to one of the `count` numbers from `first` on. */
  predicate InGap(i: int, first: int, count: nat) {
    (i - first) % 2048 < count
  }

  function Cleared(c: Cache, first: Seq16, count: nat): Cache {
    seq(2048, i requires 0 <= i < 2048 => if InGap(i, first, count) then None else c[i])
  }

  datatype Stream = Stream(cache: Cache, videoSeq: Seq16, firstSeqTime: int, sent: seq<Packet>)
  {
    predicate Started() { firstSeqTime != -1 }
  }

  const INITIAL := Stream(EmptySlots(2048), 0, -1, [])

  /** What ProcessVideoPacket does. */
  function OnPacket(st: Stream, p: Packet): Stream {
    var c := Store(st.cache, p);
    if !st.Started() then
      Stream(c, p.seqNum, p.ts, st.sent + [p])
    else if p.seqNum != Low(st.videoSeq + 1) then
      st.(cache := c)
    else
      var ps := Released(c, p.seqNum);
      Stream(c, Low(p.seqNum + |ps| - 1), st.firstSeqTime, st.sent + ps)
  }

  /** What OnFrame does for a complete key frame that begins at `start`. */
  function OnKeyFrame(st: Stream, start: Seq16): Stream {
    if !AheadOf(start, st.videoSeq) then st
    else
      var ps := Released(st.cache, start);
      var first := Low(st.videoSeq + 1);
      Stream(Cleared(st.cache, first, GapLength(first, Low(start - 1))),
             Low(start + |ps| - 1), st.firstSeqTime, st.sent + ps)
  }

  datatype Event = Rtp(packet: Packet) | KeyFrame(start: Seq16)

  function Step(st: Stream, e: Event): Stream {
    match e
    case Rtp(p) => OnPacket(st, p)
    case KeyFrame(start) => OnKeyFrame(st, start)
  }

  /** The state after a whole history of packets and key frames. */
  function Run(es: seq<Event>): Stream {
    if es == [] then INITIAL else Step(Run(es[..|es| - 1]), es[|es| - 1])
  }

  /** A run of hits visits pairwise different slots, so it ends on a miss after at most 2048 packets:
      the counter in the loops never stops them. */
  lemma RunsEndOnMiss(c: Cache, s: Seq16)
    ensures RunLength(c, s, 2049) <= 2048
    ensures Probe(c, s, RunLength(c, s, 2049)).None?
  {
    assert Low(s) % 2048 == Low(s + 2048) % 2048 && Low(s) != Low(s + 2048);
    assert RunLength(c, s, 2049) == 2049 ==> Probe(c, s, 0).Some? && Probe(c, s, 2048).Some?;
  }

  /** The walk that stops at a miss found after `k` hits has found RunLength. */
  lemma RunLengthUnique(c: Cache, s: Seq16, k: nat, limit: nat)
    requires k <= limit
    requires forall j :: 0 <= j < k ==> Probe(c, s, j).Some?
    requires k == limit || Probe(c, s, k).None?
    ensures RunLength(c, s, limit) == k
  {
    assert k < RunLength(c, s, limit) ==> Probe(c, s, k).Some?;
  }

  lemma LowPredecessor(x: int)
    ensures Low(Low(x) - 1) == Low(x - 1)
  {
  }

  lemma NextIsAhead(s: Seq16)
    ensures !AheadOrAt(s, Low(s + 1))
  {
    AheadIsOrder(s, s + 1);
  }

  /** Walking up from `first`, the clearing loop's guard holds for exactly GapLength numbers. */
  lemma GapGuard(first: Seq16, last: Seq16, t: nat)
    requires t <= GapLength(first, last)
    ensures AheadOrAt(last, Low(first + t)) <==> t < GapLength(first, last)
  {
  }

  lemma InGapGrows(i: int, first: Seq16, t: nat)
    requires 0 <= i < 2048
    ensures InGap(i, first, t + 1) <==> InGap(i, first, t) || i == Low(first + t) % 2048 || t >= 2048
  {
  }

  lemma ClearedNext(c: Cache, first: Seq16, t: nat)
    requires t <= 2048
    ensures Cleared(c, first, t + 1) == Cleared(c, first, t)[Low(first + t) % 2048 := None]
  {
    forall i | 0 <= i < 2048 { InGapGrows(i, first, t); }
  }

  lemma ClearedNone(c: Cache, first: Seq16)
    ensures Cleared(c, first, 0) == c
  {
  }

  /** After 2048 numbers every slot is empty, so it does not matter how many more there are. */
  lemma ClearedAll(c: Cache, first: Seq16, t: nat, count: nat)
    requires 2048 <= t <= count
    ensures Cleared(c, first, t) == Cleared(c, first, count)
  {
  }

  datatype FrameType = Key | Delta
  datatype Frame = Frame(frameType: FrameType, firstSeqNum: Seq16, lastSeqNum: Seq16)

  class PushStream {
    const buffer: array<Slot>
    var videoSeq: Seq16
    var firstSeqTime: int
    /** What the listener was given, in order. */
    ghost var sent: seq<Packet>

    ghost predicate Valid()
      reads this
    {
      buffer.Length == 2048
    }

    ghost function Value(): Stream
      requires Valid()
      reads this, buffer
    {
      Stream(buffer[..], videoSeq, firstSeqTime, sent)
    }

    constructor ()
      ensures Valid() && fresh(buffer)
      ensures Value() == INITIAL
    {
      buffer := new Slot[2048](_ => None);
      videoSeq := 0;
      firstSeqTime := -1;
      sent := [];
      new;
      assert buffer[..] == EmptySlots(2048);
    }

    method FindVideoPacket(s: Seq16) returns (found: Slot)
      requires Valid()
      ensures found == Find(buffer[..], s)
    {
      var index := s % 2048;
      if buffer[index].Some? && buffer[index].value.seqNum == s {
        return buffer[index];
      }
      return None;
    }

    method CacheVideoPacket(p: Packet)
      requires Valid()
      modifies buffer
      ensures buffer[..] == Store(old(buffer[..]), p)
    {
      var index := p.seqNum % 2048;
      if buffer[index].Some? && buffer[index].value.seqNum == p.seqNum {
        return;
      }
      buffer[index] := Some(p);
    }

    method ProcessVideoPacket(p: Packet)
      requires Valid()
      modifies this, buffer
      ensures Valid() && Value() == OnPacket(old(Value()), p)
    {
      CacheVideoPacket(p);
      var s: Seq16 := p.seqNum;
      if firstSeqTime == -1 {
        videoSeq := s;
        firstSeqTime := p.ts;
        sent := sent + [p];
        return;
      }
      var expected := Low(videoSeq + 1);
      NextIsAhead(videoSeq);
      if AheadOrAt(videoSeq, s) {
        return;
      } else if s != expected {
        return;
      }
      s := Forward(s);
      LowPredecessor(p.seqNum + |Released(buffer[..], p.seqNum)|);
      videoSeq := Low(s - 1);
    }

    /** The do-while loop both callers share: hands on hits from `start` and returns the number of
        the miss. */
    method Forward(start: Seq16) returns (s: Seq16)
      requires Valid()
      modifies `sent
      ensures s == Low(start + |Released(buffer[..], start)|)
      ensures sent == old(sent) + Released(buffer[..], start)
    {
      ghost var c: Cache := buffer[..];
      ghost var k := 0;
      var testSize := 0;
      s := start;
      while testSize <= 2048
        invariant 0 <= testSize <= 2049 && k == testSize
        invariant buffer[..] == c && s == Low(start + k)
        invariant forall j :: 0 <= j < k ==> Probe(c, start, j).Some?
        invariant sent == old(sent) + seq(k, j requires 0 <= j < k => Probe(c, start, j).value)
      {
        testSize := testSize + 1;
        var packet := FindVideoPacket(s);
        if packet.None? {
          break;
        }
        ghost var before := seq(k, j requires 0 <= j < k => Probe(c, start, j).value);
        sent := sent + [packet.value];
        s := Low(s + 1);
        k := k + 1;
        assert before + [packet.value] == seq(k, j requires 0 <= j < k => Probe(c, start, j).value);
      }
      RunLengthUnique(c, start, k, 2049);
      assert Released(c, start) == seq(k, j requires 0 <= j < k => Probe(c, start, j).value);
    }

    method OnFrame(frame: Option<Frame>)
      requires Valid()
      modifies this, buffer
      ensures Valid()
      ensures Value() == if frame.Some? && frame.value.frameType.Key?
                         then OnKeyFrame(old(Value()), frame.value.firstSeqNum) else old(Value())
    {
      if frame.None? || frame.value.frameType != Key {
        return;
      }
      var start: Seq16 := frame.value.firstSeqNum;
      if AheadOf(start, videoSeq) {
        var current: Seq16 := Forward(start);
        ClearVideoPacketCache(Low(videoSeq + 1), Low(start - 1));
        videoSeq := Low(current - 1);
        LowPredecessor(start + |Released(old(buffer[..]), start)|);
      }
    }

    method ClearVideoPacketCache(start: Seq16, end: Seq16)
      requires Valid()
      modifies buffer
      ensures buffer[..] == Cleared(old(buffer[..]), start, GapLength(start, end))
    {
      var s: Seq16 := start;
      var testSize := 0;
      ghost var gap := GapLength(start, end);
      ClearedNone(buffer[..], start);
      while AheadOrAt(end, s) && testSize <= 2048
        invariant 0 <= testSize <= 2049 && testSize <= gap
        invariant s == Low(start + testSize)
        invariant buffer[..] == Cleared(old(buffer[..]), start, testSize)
        decreases 2049 - testSize
      {
        GapGuard(start, end, testSize);
        ClearedNext(old(buffer[..]), start, testSize);
        buffer[s % 2048] := None;
        s := Low(s + 1);
        testSize := testSize + 1;
      }
      if testSize <= 2048 {
        GapGuard(start, end, testSize);
      } else {
        ClearedAll(old(buffer[..]), start, testSize, gap);
      }
    }
  }
}
