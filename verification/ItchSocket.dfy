/**
  The ITCH socket: packets end with the terminating line feed, and the ring buffer takes what arrives
  until a packet is whole.  With the ring buffer as it is written the packets are the right ones as
  long as it meets no layout in which it loses data or looks for the TLF in the wrong place; `sound`
  says that it has met none.
*/
module ItchSocket {
  import opened Wrappers
  import opened Sequences
  import opened RingBuffer

  const TLF: Byte := 0x0A
  const CHUNK: nat := 2048

  // ------------------------------------------------------------------------------------------
  // The cut of a stream after each TLF
  // ------------------------------------------------------------------------------------------

  datatype Framed = Framed(packets: seq<seq<Byte>>, rest: seq<Byte>)

  /** The packets of a stream, and what is left of it without TLF. */
  function Cut(s: seq<Byte>): Framed
    decreases |s|
  {
    var k := Find(s, TLF);
    if k < 0 then Framed([], s)
    else var f := Cut(s[k + 1..]); Framed([s[..k + 1]] + f.packets, f.rest)
  }

  /** One TLF, at the end. */
  ghost predicate IsPacket(p: seq<Byte>) {
    p != [] && p[|p| - 1] == 0x0A && 0x0A !in p[..|p| - 1]
  }

  function Joined(packets: seq<seq<Byte>>): seq<Byte> {
    if packets == [] then [] else packets[0] + Joined(packets[1..])
  }

  lemma FindAt(s: seq<Byte>, k: nat)
    requires k < |s| && s[k] == TLF && TLF !in s[..k]
    ensures Find(s, TLF) == k
  {
  }

  lemma FirstIsPacket(s: seq<Byte>)
    requires Find(s, TLF) >= 0
    ensures IsPacket(s[..Find(s, TLF) + 1])
  {
  }

  lemma {:induction false} CutIsWhole(s: seq<Byte>)
    ensures var f := Cut(s);
      && Joined(f.packets) + f.rest == s
      && TLF !in f.rest
      && forall p :: p in f.packets ==> IsPacket(p)
    decreases |s|
  {
    var k := Find(s, TLF);
    if k >= 0 {
      CutIsWhole(s[k + 1..]);
      FirstIsPacket(s);
      hide Find, IsPacket;
      var f := Cut(s[k + 1..]);
      Assoc(s[..k + 1], Joined(f.packets), f.rest);
      Split(s, k + 1);
      assert ([s[..k + 1]] + f.packets)[1..] == f.packets;
    }
  }

  lemma NothingToCut(s: seq<Byte>)
    ensures TLF !in s ==> Cut(s).packets == []
  {
  }

  /** There is no other cut into packets. */
  lemma {:induction false} CutIsUnique(packets: seq<seq<Byte>>, rest: seq<Byte>)
    requires TLF !in rest && forall p :: p in packets ==> IsPacket(p)
    ensures Cut(Joined(packets) + rest) == Framed(packets, rest)
  {
    var s := Joined(packets) + rest;
    if packets == [] {
      assert s == rest;
      assert Find(s, TLF) < 0;
    } else {
      var p, tail := packets[0], Joined(packets[1..]) + rest;
      assert IsPacket(p);
      Assoc(p, Joined(packets[1..]), rest);
      assert s[..|p|] == p && s[|p|..] == tail;
      assert s[..|p| - 1] == p[..|p| - 1];
      FindAt(s, |p| - 1);
      CutIsUnique(packets[1..], rest);
    }
  }

  /** A packet with a TLF at its end, added when it is not there; an empty packet stays empty. */
  function Terminated(p: seq<Byte>): seq<Byte> {
    if p == [] || p[|p| - 1] == TLF then p else p + [TLF]
  }

  function TerminatedAll(ps: seq<seq<Byte>>): seq<seq<Byte>> {
    if ps == [] then [] else [Terminated(ps[0])] + TerminatedAll(ps[1..])
  }

  /** Each of them, in order, with a TLF behind it when it has none at its end. */
  lemma {:induction false} TerminatedAt(ps: seq<seq<Byte>>, i: nat)
    requires i < |ps|
    ensures |TerminatedAll(ps)| == |ps|
    ensures TerminatedAll(ps)[i] == if ps[i] == [] || ps[i][|ps[i]| - 1] == 0x0A then ps[i] else ps[i] + [0x0A]
  {
    if i > 0 {
      TerminatedAt(ps[1..], i - 1);
    } else if |ps| > 1 {
      TerminatedAt(ps[1..], 0);
    }
  }

  /** Packets with no TLF inside, sent one after the other, are the packets that the other side cuts. */
  lemma {:induction false} SentIsReceived(ps: seq<seq<Byte>>)
    requires forall p :: p in ps ==> p != [] && TLF !in p[..|p| - 1]
    ensures Cut(Joined(TerminatedAll(ps))) == Framed(TerminatedAll(ps), [])
  {
    forall q | q in TerminatedAll(ps) ensures IsPacket(q) {
      TerminatedIsPacket(ps, q);
    }
    CutIsUnique(TerminatedAll(ps), []);
    assert Joined(TerminatedAll(ps)) + [] == Joined(TerminatedAll(ps));
  }

  lemma {:induction false} TerminatedIsPacket(ps: seq<seq<Byte>>, q: seq<Byte>)
    requires forall p :: p in ps ==> p != [] && TLF !in p[..|p| - 1]
    requires q in TerminatedAll(ps)
    ensures IsPacket(q)
  {
    if q == Terminated(ps[0]) {
      var p := ps[0];
      assert p in ps;
      assert p[|p| - 1] != TLF ==> q[..|q| - 1] == p && p == p[..|p| - 1] + [p[|p| - 1]];
    } else {
      TerminatedIsPacket(ps[1..], q);
    }
  }

  // ------------------------------------------------------------------------------------------
  // The socket
  // ------------------------------------------------------------------------------------------

  /** What recv delivers before it fails; an empty answer is the orderly shutdown of the peer. */
  function Coming(open: bool, incoming: seq<seq<Byte>>): seq<Byte> {
    if !open || incoming == [] || incoming[0] == [] then [] else incoming[0] + Coming(open, incoming[1..])
  }

  lemma NothingComes(open: bool, incoming: seq<seq<Byte>>)
    requires !open || incoming == [] || incoming[0] == []
    ensures Coming(open, incoming) == []
  {
  }

  lemma ChunkComes(incoming: seq<seq<Byte>>)
    requires incoming != [] && incoming[0] != []
    ensures Coming(true, incoming) == incoming[0] + Coming(true, incoming[1..])
  {
  }

  /** So many bytes, the data first, fit behind the beginning of the data: in the buffer or in its first block. */
  predicate Straight(block: nat, size: nat, offset: nat, total: nat) {
    offset + total <= if size == 0 then block else size
  }

  lemma WriteStaysStraight(block: nat, size: nat, offset: nat, length: nat, n: nat, total: nat)
    requires block > 0 && n > 0 && length + n <= total && length <= size && (if length > 0 then offset < size else offset == 0)
    requires Straight(block, size, offset, total)
    ensures var added := Added(block, size, length, n);
      && (added == 0 || UnwrapsWell(size, added, offset, length))
      && Straight(block, size + added, offset, total)
  {
    hide RoundUp;
    if length == 0 && size == 0 {
      RoundUpIs(n, block, 1);
    }
  }

  lemma ReadStaysStraight(block: nat, size: nat, offset: nat, length: nat, n: nat, total: nat)
    requires n <= length <= size && length <= total && (length > 0 ==> offset < size)
    requires Straight(block, size, offset, total)
    ensures Straight(block, size, if n == length then 0 else (offset + n) % size, total - n)
  {
    if n < length {
      EndOffset(size, offset, n);
    }
  }

  lemma AddedFits(block: nat, size: nat, length: nat, n: nat)
    requires block > 0 && length <= size
    ensures length + n <= size + Added(block, size, length, n)
  {
    hide RoundUp;
  }

  /** How much a read up to TLF takes of the data. */
  function TakenOf(data: seq<Byte>): (n: nat)
    ensures n <= |data| && (data != [] ==> n > 0)
  {
    UpTo(Find(data, TLF), CHUNK, |data|, true)
  }

  /** Up to the first TLF when that is within 2048 bytes, and else 2048 bytes or all. */
  lemma TakenIs(data: seq<Byte>)
    ensures var k := Find(data, 0x0A);
      TakenOf(data) == if 0 <= k < 2048 then k + 1 else if |data| < 2048 then |data| else 2048
  {
  }

  /** A layout of the ring buffer as a value. */
  datatype Layout = Layout(block: nat, size: nat, offset: nat)

  ghost predicate Possible(l: Layout, length: nat) {
    l.block > 0 && length <= l.size && if length > 0 then l.offset < l.size else l.offset == 0
  }

  function AfterRead(l: Layout, n: nat, length: nat): Layout
    requires n <= length <= l.size
  {
    if n == length then l.(offset := 0) else l.(offset := (l.offset + n) % l.size)
  }

  /**
    Receiving the next packet into the ring buffer as it is written meets good layouts only.  It goes
    by the data, by the chunks that come and by the layout, and not by the rest of the memory.
  */
  ghost predicate Handles(l: Layout, data: seq<Byte>, open: bool, incoming: seq<seq<Byte>>)
    requires Possible(l, |data|)
    decreases |incoming|, 2 * |data| + 1
  {
    && (data == [] || SearchesWell(l.size, l.offset, |data|))
    && var n := TakenOf(data);
       || (n > 0 && data[n - 1] == TLF)
       || HandlesRefill(AfterRead(l, n, |data|), data[n..], open, incoming)
  }

  ghost predicate HandlesRefill(l: Layout, data: seq<Byte>, open: bool, incoming: seq<seq<Byte>>)
    requires Possible(l, |data|)
    decreases |incoming|, if data == [] then 0 else 2 * |data| + 2
  {
    if !open || incoming == [] || incoming[0] == [] then data == [] || Handles(l, data, false, incoming)
    else
      var added := Added(l.block, l.size, |data|, |incoming[0]|);
      AddedFits(l.block, l.size, |data|, |incoming[0]|);
      && (added == 0 || UnwrapsWell(l.size, added, l.offset, |data|))
      && Handles(l.(size := l.size + added), data + incoming[0], open, incoming[1..])
  }

  /** How select ends. */
  datatype Wait = Readable | TimedOut | SelectError

  /** After so many readable waits a chunk has come for each of them. */
  ghost predicate HasRead(waits: seq<Wait>, before: seq<seq<Byte>>, after: seq<seq<Byte>>, n: nat) {
    n <= |waits| && n <= |before| && after == before[n..] && forall j :: 0 <= j < n ==> waits[j] == Readable
  }

  /**
    How waiting for a packet ends: with a chunk that has the TLF or, before any chunk, with a TLF in the
    buffer; or at a timeout or after all waits with the socket open; or closed, at an error of select or
    when there is nothing more to receive.
  */
  ghost predicate WaitEnds(waits: seq<Wait>, before: seq<seq<Byte>>, after: seq<seq<Byte>>, found: bool, open: bool) {
    var n := |before| - |after|;
    && n >= 0 && HasRead(waits, before, after, n)
    && (found ==> open && (n > 0 ==> 0x0A in before[n - 1]))
    && (!found && open ==> n == |waits| || waits[n] == TimedOut)
    && (!found && !open ==> n < |waits| && (waits[n] == SelectError || (waits[n] == Readable && (after == [] || after[0] == []))))
  }

  lemma NothingRead(waits: seq<Wait>, incoming: seq<seq<Byte>>)
    ensures HasRead(waits, incoming, incoming, 0) && WaitEnds(waits, incoming, incoming, true, true)
    ensures |waits| == 0 ==> WaitEnds(waits, incoming, incoming, false, true)
  {
  }

  lemma Stopped(waits: seq<Wait>, before: seq<seq<Byte>>, after: seq<seq<Byte>>, n: nat)
    requires HasRead(waits, before, after, n) && n < |waits|
    ensures waits[n] == TimedOut ==> WaitEnds(waits, before, after, false, true)
    ensures waits[n] == SelectError || (waits[n] == Readable && (after == [] || after[0] == [])) ==>
              WaitEnds(waits, before, after, false, false)
  {
  }

  lemma OneMoreRead(waits: seq<Wait>, before: seq<seq<Byte>>, after: seq<seq<Byte>>, n: nat)
    requires n < |waits| && waits[n] == Readable && n < |before| && after == before[n..][1..]
    requires HasRead(waits, before, before[n..], n)
    ensures HasRead(waits, before, after, n + 1)
    ensures 0x0A in before[n] ==> WaitEnds(waits, before, after, true, true)
    ensures n + 1 == |waits| ==> WaitEnds(waits, before, after, false, true)
  {
  }

  /** What one call of send takes, or -1; and whether room comes up in time when it takes nothing. */
  datatype SendAnswer = SendAnswer(sent: int, room: bool)

  // ------------------------------------------------------------------------------------------
  // What sending comes to
  // ------------------------------------------------------------------------------------------

  /** The answer at which the loop gives up: an error, or nothing taken and no room in time. */
  predicate Stops(a: SendAnswer) {
    a.sent < 0 || (a.sent == 0 && !a.room)
  }

  /** How many bytes the network takes before such an answer, and before the answers end. */
  function Capacity(answers: seq<SendAnswer>): nat {
    if answers == [] || Stops(answers[0]) then 0 else answers[0].sent + Capacity(answers[1..])
  }

  /** How many answers so many bytes take. */
  function Calls(answers: seq<SendAnswer>, n: nat): (k: nat)
    requires n <= Capacity(answers)
    ensures k <= |answers|
  {
    if n == 0 then 0
    else 1 + Calls(answers[1..], if answers[0].sent < n then n - answers[0].sent else 0)
  }

  function Total(answers: seq<SendAnswer>): int {
    if answers == [] then 0 else answers[0].sent + Total(answers[1..])
  }

  /** The capacity is the sum of the answers up to the first at which the loop gives up. */
  lemma {:induction false} CapacityIs(answers: seq<SendAnswer>) returns (k: nat)
    ensures k <= |answers| && Capacity(answers) == Total(answers[..k])
    ensures forall j :: 0 <= j < k ==> answers[j].sent > 0 || (answers[j].sent == 0 && answers[j].room)
    ensures k < |answers| ==> answers[k].sent < 0 || (answers[k].sent == 0 && !answers[k].room)
  {
    if answers == [] || Stops(answers[0]) {
      k := 0;
    } else {
      var j := CapacityIs(answers[1..]);
      k := j + 1;
      assert answers[..k][1..] == answers[1..][..j];
      assert forall i :: 0 < i <= j ==> answers[i] == answers[1..][i - 1];
    }
  }

  /** So many answers are enough, and no fewer. */
  lemma {:induction false} CallsAre(answers: seq<SendAnswer>, n: nat)
    requires 0 < n <= Capacity(answers)
    ensures var k := Calls(answers, n);
      && 0 < k <= |answers| && Total(answers[..k]) >= n && Total(answers[..k - 1]) < n
      && forall j :: 0 <= j < k ==> answers[j].sent > 0 || (answers[j].sent == 0 && answers[j].room)
    decreases |answers|
  {
    var first, k := answers[0].sent, Calls(answers, n);
    assert answers[..k][1..] == answers[1..][..k - 1];
    if first < n {
      CallsAre(answers[1..], n - first);
      assert answers[..k - 1][1..] == answers[1..][..k - 2];
      assert forall j :: 0 < j < k ==> answers[j] == answers[1..][j - 1];
    }
  }

  /** The other side then takes that packet and the next one for one. */
  lemma EndMissingMerges(packet: seq<Byte>, next: seq<Byte>, rest: seq<Byte>)
    requires TLF !in packet && IsPacket(next)
    ensures Cut(packet + next + rest) == Framed([packet + next] + Cut(rest).packets, Cut(rest).rest)
  {
    var both := packet + next;
    assert both[..|both| - 1] == packet + next[..|next| - 1];
    Whole(both, rest);
  }

  class Socket {
    const buffer: ExpandableRingBuffer
    var open: bool
    /** The answers of recv that are still to come. */
    var incoming: seq<seq<Byte>>
    /** No write and no search has met a layout that the ring buffer does not handle. */
    ghost var sound: bool

    constructor (buffer: ExpandableRingBuffer, incoming: seq<seq<Byte>>)
      requires buffer.Valid()
      requires forall c :: c in incoming ==> |c| <= CHUNK
      ensures Valid() && this.buffer == buffer && this.incoming == incoming && open && sound
    {
      this.buffer, this.open, this.incoming, this.sound := buffer, true, incoming, true;
    }

    ghost predicate Valid()
      reads this, buffer
    {
      && buffer.Valid()
      && forall c :: c in incoming ==> |c| <= CHUNK
    }

    /** Everything that the socket holds and will be given. */
    ghost function Stream(): seq<Byte>
      requires Valid()
      reads this, buffer, buffer.buffer
    {
      buffer.Contents() + Coming(open, incoming)
    }

    /** The corrected ring buffer handles every layout; and nothing is ever wrapped when all of the stream has room. */
    ghost predicate Safe()
      requires Valid()
      reads this, buffer, buffer.buffer
    {
      sound && (buffer.text == Corrected || Straight(buffer.blockSize, buffer.buffer.Length, buffer.dataOffset, |Stream()|))
    }

    ghost function Here(): Layout
      reads this, buffer
    {
      Layout(buffer.blockSize, buffer.buffer.Length, buffer.dataOffset)
    }

    /** Whether receiving a packet, and whether waiting for more of it, keeps the socket sound: known before it begins. */
    ghost predicate WillHandle()
      requires Valid()
      reads this, buffer, buffer.buffer
    {
      sound && (buffer.text == Corrected || Handles(Here(), buffer.Contents(), open, incoming))
    }

    ghost predicate WillHandleRefill()
      requires Valid()
      reads this, buffer, buffer.buffer
    {
      sound && (buffer.text == Corrected || HandlesRefill(Here(), buffer.Contents(), open, incoming))
    }

    method RecvIntoBuffer() returns (ok: bool, hasTLF: bool)
      requires Valid()
      modifies this, buffer, buffer.buffer
      ensures Valid() && (buffer.buffer == old(buffer.buffer) || fresh(buffer.buffer))
      ensures ok == (old(open) && old(incoming) != [] && old(incoming)[0] != [])
      ensures sound == (old(sound) && (ok ==> old(buffer.Keeps(|incoming[0]|))))
      ensures old(Safe()) ==> Safe()
      ensures ok ==> open && incoming == old(incoming)[1..] && hasTLF == (TLF in old(incoming)[0])
      ensures ok && sound ==> buffer.Contents() == old(buffer.Contents()) + old(incoming)[0]
      ensures !ok ==> !open && !hasTLF && incoming == old(incoming) && buffer.Contents() == old(buffer.Contents())
      ensures sound ==> Stream() == old(Stream())
      ensures |Stream()| == |old(Stream())|
      ensures Here() == if ok then old(Here()).(size := old(Here().size + Added(Here().block, Here().size, buffer.dataLength, |incoming[0]|)))
                        else old(Here())
    {
      hide Coming, ExpandableRingBuffer.Contents, Kept, Added, UnwrapsWell, Straight;
      if !open || |incoming| == 0 || |incoming[0]| == 0 {
        NothingComes(open, incoming);
        open := false;
        NothingComes(open, incoming);
        return false, false;
      }
      var chunk := incoming[0];
      ChunkComes(incoming);
      Assoc(buffer.Contents(), chunk, Coming(open, incoming[1..]));
      Length();
      if Safe() && buffer.text == AsWritten {
        WriteStaysStraight(buffer.blockSize, buffer.buffer.Length, buffer.dataOffset, buffer.dataLength, |chunk|, |Stream()|);
      }
      incoming := incoming[1..];
      hasTLF := TLF in chunk;
      sound := sound && buffer.Keeps(|chunk|);
      var _ := buffer.WriteData(chunk);
      Length();
      ok := true;
    }

    lemma Length()
      requires Valid()
      ensures |buffer.Contents()| == buffer.dataLength
    {
    }

    /** ContainsByte. */
    method ContainsTLF() returns (found: bool)
      requires Valid()
      modifies this`sound
      ensures Valid() && (sound ==> old(sound)) && (old(Safe()) ==> Safe())
      ensures sound ==> (found <==> TLF in buffer.Contents())
    {
      sound := sound && buffer.Searchable();
      var k, _ := buffer.OffsetOfByte(TLF);
      found := k >= 0;
    }

    /** One wait by select, and what is received when it says that there is something. */
    method WaitOnce(wait: Wait) returns (ok: bool, hasTLF: bool)
      requires Valid() && open
      modifies this, buffer, buffer.buffer
      ensures Valid() && (buffer.buffer == old(buffer.buffer) || fresh(buffer.buffer))
      ensures (sound ==> old(sound)) && (old(Safe()) ==> Safe())
      ensures ok ==> wait == Readable && open && old(incoming) != [] && incoming == old(incoming)[1..]
      ensures ok ==> hasTLF == (TLF in old(incoming)[0])
      ensures !ok ==> incoming == old(incoming) && buffer.Contents() == old(buffer.Contents()) && (open <==> wait == TimedOut)
      ensures !ok && wait == Readable ==> incoming == [] || incoming[0] == []
      ensures sound && open ==> Stream() == old(Stream())
      ensures sound ==> old(Stream()) == buffer.Contents() + Coming(true, incoming)
      ensures sound && ok && TLF !in old(buffer.Contents()) ==> (hasTLF <==> TLF in buffer.Contents())
    {
      hide ExpandableRingBuffer.Contents, Ring, Find;
      if wait == SelectError {
        open := false;
        return false, false;
      } else if wait == TimedOut {
        return false, false;
      }
      ok, hasTLF := RecvIntoBuffer();
    }

    /** Whether a whole packet is in the buffer, waiting for it as long as select allows. */
    method RecvMessage(waits: seq<Wait>) returns (found: bool)
      requires Valid()
      modifies this, buffer, buffer.buffer
      ensures Valid() && (buffer.buffer == old(buffer.buffer) || fresh(buffer.buffer))
      ensures sound ==> old(sound)
      ensures old(Safe()) ==> Safe()
      ensures sound && open ==> Stream() == old(Stream())
      ensures sound ==> old(Stream()) == buffer.Contents() + Coming(old(open), incoming)
      ensures sound && old(open) ==> (found <==> TLF in buffer.Contents())
      ensures !old(open) ==> !found && !open && incoming == old(incoming)
      ensures old(open) ==> WaitEnds(waits, old(incoming), incoming, found, open)
    {
      if !open {
        return false;
      }
      hide HasRead, WaitEnds;
      NothingRead(waits, incoming);
      found := ContainsTLF();
      if found {
        return;
      }
      for i := 0 to |waits|
        invariant Valid() && (buffer.buffer == old(buffer.buffer) || fresh(buffer.buffer))
        invariant open && (sound ==> old(sound)) && (old(Safe()) ==> Safe())
        invariant HasRead(waits, old(incoming), incoming, i)
        invariant sound ==> Stream() == old(Stream()) && TLF !in buffer.Contents()
      {
        hide ExpandableRingBuffer.Contents, Ring, Find, Socket.Safe;
        Stopped(waits, old(incoming), incoming, i);
        var ok, hasTLF := WaitOnce(waits[i]);
        if !ok {
          return false;
        }
        OneMoreRead(waits, old(incoming), incoming, i);
        if hasTLF {
          return true;
        }
      }
      return false;
    }

    /**
      The next packet of the stream, however it arrives; nothing when the stream ends before it, where
      the loop of the source goes on forever.  It does not read from the network exactly when the
      packet is whole within the first chunk of the buffer.  Whether the ring buffer as it is written
      meets good layouts only is known before the call.
    */
    method RecvPacket() returns (packet: Option<seq<Byte>>)
      requires Valid()
      modifies this, buffer, buffer.buffer
      ensures Valid() && (buffer.buffer == old(buffer.buffer) || fresh(buffer.buffer))
      ensures sound <==> old(WillHandle())
      ensures old(Safe()) ==> Safe()
      ensures packet.Some? ==> packet.value != [] && |old(Stream())| == |packet.value| + |Stream()|
      ensures sound ==> (packet.Some? <==> TLF in old(Stream()))
      ensures sound && packet.Some? ==>
                var f, g := Cut(old(Stream())), Cut(Stream());
                f.packets == [packet.value] + g.packets && f.rest == g.rest && old(Stream()) == packet.value + Stream()
      ensures sound ==>
                if 0 <= Find(old(buffer.Contents()), TLF) < CHUNK then open == old(open) && incoming == old(incoming)
                else if old(Coming(open, incoming)) != [] then |incoming| < |old(incoming)|
                else !open && incoming == old(incoming)
    {
      hide ExpandableRingBuffer.Contents, Find, Cut, Coming, Safe, WillHandleRefill, Handles, Stream;
      var str: seq<Byte> := [];
      ghost var read := false;
      assert [] + Stream() == Stream();
      while true
        invariant Valid() && (buffer.buffer == old(buffer.buffer) || fresh(buffer.buffer))
        invariant (old(WillHandle()) <==> WillHandle()) && (old(Safe()) ==> Safe())
        invariant |str| + |Stream()| == |old(Stream())|
        invariant sound ==> str + Stream() == old(Stream()) && TLF !in str
        invariant !read ==> open == old(open) && incoming == old(incoming) && buffer.Contents() == old(buffer.Contents())
        invariant sound && read ==>
                    && !(0 <= Find(old(buffer.Contents()), TLF) < CHUNK)
                    && if old(Coming(open, incoming)) != [] then |incoming| < |old(incoming)| else !open && incoming == old(incoming)
        decreases |incoming|, buffer.dataLength
      {
        var part := Take();
        Assoc(str, part, Stream());
        str := str + part;
        if |part| > 0 && part[|part| - 1] == TLF {
          if sound {
            Whole(str, Stream());
          }
          return Some(str);
        }
        var ok := Refill();
        read := true;
        if !ok && buffer.dataLength == 0 {
          Spent();
          return None;
        }
      }
    }

    /** One call after the other until no packet comes: exactly the packets that the stream is cut into, in order. */
    method RecvAll() returns (packets: seq<seq<Byte>>)
      requires Valid()
      modifies this, buffer, buffer.buffer
      ensures Valid() && (buffer.buffer == old(buffer.buffer) || fresh(buffer.buffer))
      ensures sound ==> old(sound) && packets == Cut(old(Stream())).packets
      ensures old(Safe()) ==> Safe()
    {
      hide ExpandableRingBuffer.Contents, Find, Cut, Coming, Safe, Handles;
      packets := [];
      assert [] + Cut(Stream()).packets == Cut(Stream()).packets;
      while true
        invariant Valid() && (buffer.buffer == old(buffer.buffer) || fresh(buffer.buffer))
        invariant (sound ==> old(sound)) && (old(Safe()) ==> Safe())
        invariant sound ==> packets + Cut(Stream()).packets == Cut(old(Stream())).packets
        decreases |Stream()|
      {
        ghost var before := Stream();
        var packet := RecvPacket();
        if packet.None? {
          NothingToCut(before);
          return;
        }
        Assoc(packets, [packet.value], Cut(Stream()).packets);
        packets := packets + [packet.value];
      }
    }

    /**
      Sending a packet in as many pieces as the network takes it, and a TLF when it has none at its
      end.  A send of that last byte that takes nothing is not noticed: then the packet goes out
      without its end although the answer is true.
    */
    method SendPacket(packet: seq<Byte>, answers: seq<SendAnswer>) returns (ok: bool, sent: seq<Byte>)
      modifies this`open
      ensures open == ok
      ensures !old(open) ==> !ok && sent == []
      ensures old(open) && packet == [] ==> ok && sent == []
      ensures old(open) && Capacity(answers) < |packet| ==> !ok && sent == packet[..Capacity(answers)]
      ensures old(open) && |packet| <= Capacity(answers) && packet != [] && packet[|packet| - 1] == 0x0A ==> ok && sent == packet
      ensures old(open) && packet != [] && |packet| <= Capacity(answers) && packet[|packet| - 1] != 0x0A ==>
                var k := Calls(answers, |packet|);
                && (k == |answers| || answers[k].sent < 0 ==> !ok && sent == packet)
                && (k < |answers| && answers[k].sent == 0 ==> ok && sent == packet)
                && (k < |answers| && answers[k].sent > 0 ==> ok && sent == packet + [0x0A])
    {
      sent := [];
      if !open {
        return false, [];
      }
      if |packet| == 0 {
        return true, [];
      }
      var i := 0;
      while |sent| < |packet|
        invariant i <= |answers| && |sent| <= |packet| && sent == packet[..|sent|] && open == old(open)
        invariant Capacity(answers) >= |packet| <==> Capacity(answers[i..]) >= |packet| - |sent|
        invariant Capacity(answers) >= |packet| ==> Calls(answers, |packet|) == i + Calls(answers[i..], |packet| - |sent|)
        invariant Capacity(answers) < |packet| ==> Capacity(answers) == |sent| + Capacity(answers[i..])
        decreases |answers| - i
      {
        // A network that gives no more answers has failed.
        if i == |answers| || answers[i].sent < 0 {
          open := false;
          return false, sent;
        }
        assert answers[i..][0] == answers[i] && answers[i..][1..] == answers[i + 1..];
        var n := if answers[i].sent < |packet| - |sent| then answers[i].sent else |packet| - |sent|;
        sent := packet[..|sent| + n];
        if n == 0 && !answers[i].room {
          open := false;
          return false, sent;
        }
        i := i + 1;
      }
      assert i == Calls(answers, |packet|) && sent == packet;
      if packet[|packet| - 1] != TLF {
        if i == |answers| || answers[i].sent < 0 {
          open := false;
          return false, sent;
        }
        if answers[i].sent > 0 {
          sent := sent + [TLF];
        }
      }
      return true, sent;
    }

    /** The buffer up to its first TLF, as far as one chunk goes. */
    method Take() returns (part: seq<Byte>)
      requires Valid()
      modifies this`sound, buffer`dataOffset, buffer`dataLength
      ensures Valid() && old(Stream()) == part + Stream() && buffer.dataLength == old(buffer.dataLength) - |part|
      ensures sound == (old(sound) && old(buffer.Searchable()))
      ensures old(Safe()) ==> Safe()
      ensures old(WillHandle()) <==> sound && ((part != [] && part[|part| - 1] == TLF) || WillHandleRefill())
      ensures buffer.dataLength > 0 ==> |part| > 0
      ensures sound ==> ((part != [] && part[|part| - 1] == TLF) <==> 0 <= Find(old(buffer.Contents()), TLF) < CHUNK)
      ensures sound ==> if part != [] && part[|part| - 1] == TLF then TLF !in part[..|part| - 1] else TLF !in part
    {
      hide ExpandableRingBuffer.Contents, Find, Coming, Searched;
      Length();
      ghost var safe, o, l, total := Safe(), buffer.dataOffset, buffer.dataLength, |Stream()|;
      sound := sound && buffer.Searchable();
      ghost var mem;
      part, mem := buffer.ReadDataUtilByte(CHUNK, TLF, true);
      if sound {
        Taken(old(buffer.Contents()), part, buffer.Contents());
      }
      Assoc(part, buffer.Contents(), Coming(open, incoming));
      if safe && buffer.text == AsWritten {
        ReadStaysStraight(buffer.blockSize, buffer.buffer.Length, o, l, |part|, total);
      }
    }

    method Refill() returns (ok: bool)
      requires Valid()
      modifies this, buffer, buffer.buffer
      ensures Valid() && (buffer.buffer == old(buffer.buffer) || fresh(buffer.buffer))
      ensures sound ==> old(sound) && Stream() == old(Stream())
      ensures old(Safe()) ==> Safe()
      ensures if ok then open && |incoming| < |old(incoming)|
              else !open && incoming == old(incoming) && buffer.dataLength == old(buffer.dataLength)
      ensures (ok <==> old(Coming(open, incoming)) != []) && (ok ==> old(open))
      ensures |Stream()| == |old(Stream())|
      ensures old(WillHandleRefill()) <==> sound && (WillHandle() || (!ok && buffer.dataLength == 0))
    {
      hide Safe, ExpandableRingBuffer.Contents;
      Length();
      var hasTLF;
      ok, hasTLF := RecvIntoBuffer();
      Length();
    }

    lemma Spent()
      requires Valid() && !open && buffer.dataLength == 0
      ensures Stream() == []
    {
    }
  }

  /** What a read up to TLF gives. */
  lemma Taken(c: seq<Byte>, part: seq<Byte>, rest: seq<Byte>)
    requires c == part + rest
    requires var k := Find(c, TLF);
      var n := if k < 0 then |c| else k + 1;
      |part| == if CHUNK > n then n else CHUNK
    ensures (part != [] && part[|part| - 1] == TLF) <==> 0 <= Find(c, TLF) < CHUNK
    ensures if part != [] && part[|part| - 1] == TLF then TLF !in part[..|part| - 1] else TLF !in part
  {
    assert forall j :: 0 <= j < |part| ==> part[j] == c[j];
  }

  /** A packet at the head of the stream is its first cut. */
  lemma Whole(packet: seq<Byte>, rest: seq<Byte>)
    requires IsPacket(packet)
    ensures TLF in packet + rest
    ensures Cut(packet + rest) == Framed([packet] + Cut(rest).packets, Cut(rest).rest)
  {
    var s, k := packet + rest, |packet| - 1;
    assert s[k] == TLF && s[..k] == packet[..k];
    FindAt(s, k);
    assert s[..k + 1] == packet && s[k + 1..] == rest;
  }

  /** A new socket reports success for any packet without a TLF, and does not send the TLF. */
  method EndNotSent(packet: seq<Byte>) returns (ok: bool, sent: seq<Byte>)
    requires packet != [] && packet[|packet| - 1] != 0x0A
    ensures ok && sent == packet != Terminated(packet)
  {
    var buffer := new ExpandableRingBuffer(0, AsWritten);
    var socket := new Socket(buffer, []);
    var whole, nothing := SendAnswer(|packet|, true), SendAnswer(0, true);
    ghost var answers := [whole, nothing];
    assert answers[1..] == [nothing] && [nothing][1..] == [];
    assert Capacity([nothing]) == Capacity([]) == 0;
    assert Capacity(answers) == |packet| && Calls(answers, |packet|) == 1 + Calls([nothing], 0);
    ok, sent := socket.SendPacket(packet, [whole, nothing]);
  }
}
