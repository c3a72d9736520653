/**
  The growing ring buffer of the ITCH receive path.  It is to be a queue of bytes.  Three lines of
  ExpandableRingBuffer.cpp do not do what their comments say; `Text` tells the text as it is written
  from the text with the corrections, which are
  - line 64: the data is wrapped when it reaches past the end of the buffer, also when the buffer is
    exactly full (then the end of the data meets its start);
  - line 78: what remains in the beginning of the buffer moves to the buffer head;
  - line 180: the search of the trailing part starts at the data, not at the data length.
*/
module RingBuffer {
  import opened Sequences

  newtype Byte = x: int | 0 <= x < 256

  datatype Text = AsWritten | Corrected

  const DEFAULT_BLOCK_SIZE: int := 8192

  // ------------------------------------------------------------------------------------------
  // Memory as a sequence
  // ------------------------------------------------------------------------------------------

  /** The bytes of a ring, oldest first. */
  function Ring(s: seq<Byte>, offset: nat, length: nat): (r: seq<Byte>)
    requires offset <= |s| && length <= |s|
    ensures |r| == length
  {
    if offset + length <= |s| then s[offset..offset + length] else s[offset..] + s[..offset + length - |s|]
  }

  /** memmove: the bytes at `src` come to `dst`. */
  function Moved(s: seq<Byte>, dst: nat, src: nat, n: nat): (r: seq<Byte>)
    requires dst + n <= |s| && src + n <= |s|
    ensures |r| == |s|
    ensures forall k :: 0 <= k < |s| ==> r[k] == if dst <= k < dst + n then s[src + k - dst] else s[k]
  {
    s[..dst] + s[src..src + n] + s[dst + n..]
  }

  /** Whether growing takes the data for wrapped. */
  predicate SeenAsWrapped(text: Text, size: nat, offset: nat, length: nat)
    requires size > 0
  {
    match text
    case AsWritten => (offset + length) % size < offset
    case Corrected => offset + length > size
  }

  /** The memory after the buffer of `s` has grown by `tail` and the data is unwrapped. */
  function Regrown(text: Text, s: seq<Byte>, tail: seq<Byte>, offset: nat, length: nat): (r: seq<Byte>)
    requires 0 < |s| && offset < |s| && length <= |s|
    ensures |r| == |s| + |tail|
  {
    if SeenAsWrapped(text, |s|, offset, length) then
      var end := (offset + length) % |s|;
      var n := if end < |tail| then end else |tail|;
      var s' := Moved(s + tail, |s|, 0, n);
      if n < end then
        match text
        case AsWritten => Moved(s', n, 0, end - n)
        case Corrected => Moved(s', 0, n, end - n)
      else s'
    else s + tail
  }

  /** The layouts that the text as it is written unwraps well. */
  predicate UnwrapsWell(size: nat, added: nat, offset: nat, length: nat) {
    || offset + length <= size
    || (length < size && offset + length - size <= added)
  }

  lemma EndOffset(size: nat, offset: nat, length: nat)
    requires offset < size && length <= size
    ensures (offset + length) % size == if offset + length < size then offset + length else offset + length - size
  {
  }

  lemma RingAt(s: seq<Byte>, offset: nat, length: nat, k: nat)
    requires offset <= |s| && k < length <= |s|
    ensures Ring(s, offset, length)[k] == if offset + k < |s| then s[offset + k] else s[offset + k - |s|]
  {
  }

  /** Where the corrected text puts the data that was wrapped: behind the old end, and what is left at the head. */
  lemma CorrectedAt(s: seq<Byte>, tail: seq<Byte>, offset: nat, length: nat, j: nat)
    requires 0 < |s| && offset < |s| && length <= |s| && offset + length > |s| && j < offset + length - |s|
    ensures var r := Regrown(Corrected, s, tail, offset, length);
      r[if j < |tail| then |s| + j else j - |tail|] == s[j]
  {
    var end := offset + length - |s|;
    EndOffset(|s|, offset, length);
    var n := if end < |tail| then end else |tail|;
    var s' := Moved(s + tail, |s|, 0, n);
    if j < |tail| {
      assert s'[|s| + j] == s[j];
    } else {
      assert s'[j] == s[j];
    }
  }

  /** The bytes from the offset on stay. */
  lemma CorrectedStays(s: seq<Byte>, tail: seq<Byte>, offset: nat, length: nat, i: nat)
    requires 0 < |s| && offset <= i < |s| && length <= |s|
    ensures Regrown(Corrected, s, tail, offset, length)[i] == s[i]
  {
    EndOffset(|s|, offset, length);
  }

  /** The corrected text keeps the data, whatever the layout. */
  lemma CorrectedKeeps(s: seq<Byte>, tail: seq<Byte>, offset: nat, length: nat)
    requires 0 < |s| && offset < |s| && length <= |s|
    ensures Ring(Regrown(Corrected, s, tail, offset, length), offset, length) == Ring(s, offset, length)
  {
    hide Moved;
    var r := Regrown(Corrected, s, tail, offset, length);
    forall k | 0 <= k < length ensures Ring(r, offset, length)[k] == Ring(s, offset, length)[k] {
      hide Ring, Regrown;
      RingAt(r, offset, length, k);
      RingAt(s, offset, length, k);
      if offset + k < |s| {
        CorrectedStays(s, tail, offset, length, offset + k);
      } else {
        CorrectedAt(s, tail, offset, length, offset + k - |s|);
      }
    }
  }

  /** The text as it is written keeps the data, whatever its bytes, in those layouts. */
  lemma AsWrittenKeeps(s: seq<Byte>, tail: seq<Byte>, offset: nat, length: nat)
    requires 0 < |s| && offset < |s| && length <= |s|
    requires UnwrapsWell(|s|, |tail|, offset, length)
    ensures Ring(Regrown(AsWritten, s, tail, offset, length), offset, length) == Ring(s, offset, length)
  {
    EndOffset(|s|, offset, length);
    assert Regrown(AsWritten, s, tail, offset, length) == Regrown(Corrected, s, tail, offset, length);
    CorrectedKeeps(s, tail, offset, length);
  }

  /** Memory that holds another value at every place but one. */
  function Marked(n: nat, place: int): (s: seq<Byte>)
    ensures |s| == n && forall k :: 0 <= k < n ==> s[k] == if k == place then 1 else 0
  {
    seq(n, k => if k == place then 1 else 0)
  }

  lemma FullIsMissed(s: seq<Byte>, tail: seq<Byte>, offset: nat)
    requires 0 < offset < |s|
    ensures Regrown(AsWritten, s, tail, offset, |s|) == s + tail
  {
    EndOffset(|s|, offset, |s|);
  }

  /** Exactly full at a non-zero offset, the first byte that was wrapped is lost: line 64. */
  lemma FullLoses(size: nat, tail: seq<Byte>, offset: nat)
    requires 0 < offset < size && |tail| > 0
    ensures exists s: seq<Byte> :: |s| == size
              && Ring(Regrown(AsWritten, s, tail, offset, size), offset, size) != Ring(s, offset, size)
  {
    hide Ring, Moved;
    var s := Marked(size, if tail[0] == 1 then -1 else 0);
    FullIsMissed(s, tail, offset);
    hide Regrown;
    var r := Regrown(AsWritten, s, tail, offset, size);
    RingAt(s, offset, size, size - offset);
    RingAt(r, offset, size, size - offset);
    assert Ring(r, offset, size)[size - offset] != Ring(s, offset, size)[size - offset];
  }

  /** When the added space is too short, the first byte that stays at the head is in the wrong place: line 78. */
  lemma ShortLoses(size: nat, tail: seq<Byte>, offset: nat, length: nat)
    requires 0 < size && offset < size && length < size && |tail| > 0 && offset + length > size + |tail|
    ensures exists s: seq<Byte> :: |s| == size
              && Ring(Regrown(AsWritten, s, tail, offset, length), offset, length) != Ring(s, offset, length)
  {
    var t := |tail|;
    var s := Marked(size, t);
    var k := size - offset + t;
    EndOffset(size, offset, length);
    var r := Regrown(AsWritten, s, tail, offset, length);
    assert r[0] == s[0];
    hide Regrown, Ring;
    RingAt(s, offset, length, k);
    RingAt(r, offset, length, k);
    assert Ring(r, offset, length)[k] != Ring(s, offset, length)[k];
  }

  /** Growing as it is written keeps whatever data is there if and only if the layout is one of those. */
  lemma KeepsIff(size: nat, tail: seq<Byte>, offset: nat, length: nat)
    requires 0 < size && offset < size && length <= size && |tail| > 0
    ensures (forall s: seq<Byte> :: |s| == size ==>
              Ring(Regrown(AsWritten, s, tail, offset, length), offset, length) == Ring(s, offset, length))
            <==> offset + length <= size || (length < size && offset + length - size <= |tail|)
  {
    hide Regrown, Ring;
    if UnwrapsWell(size, |tail|, offset, length) {
      forall s: seq<Byte> | |s| == size
        ensures Ring(Regrown(AsWritten, s, tail, offset, length), offset, length) == Ring(s, offset, length)
      {
        AsWrittenKeeps(s, tail, offset, length);
      }
    } else if length == size {
      FullLoses(size, tail, offset);
    } else {
      ShortLoses(size, tail, offset, length);
    }
  }

  /** memcpy into the buffer. */
  function Overlaid(s: seq<Byte>, at: nat, input: seq<Byte>): (r: seq<Byte>)
    requires at + |input| <= |s|
    ensures |r| == |s|
    ensures forall k :: 0 <= k < |s| ==> r[k] == if at <= k < at + |input| then input[k - at] else s[k]
  {
    s[..at] + input + s[at + |input|..]
  }

  /** The lines that copy the input behind the data, in one or two pieces. */
  function Appended(s: seq<Byte>, offset: nat, length: nat, input: seq<Byte>): (r: seq<Byte>)
    requires offset < |s| && 0 < length && length + |input| <= |s|
    ensures |r| == |s|
  {
    EndOffset(|s|, offset, length);
    var end := (offset + length) % |s|;
    if end > offset && |input| > |s| - end then
      var n := |s| - end;
      Overlaid(Overlaid(s, end, input[..n]), 0, input[n..])
    else Overlaid(s, end, input)
  }

  lemma AppendedIs(s: seq<Byte>, offset: nat, length: nat, input: seq<Byte>)
    requires offset < |s| && 0 < length && length + |input| <= |s|
    ensures var end := (offset + length) % |s|;
      && end < |s|
      && (end > offset ==>
           var n := if |input| > |s| - end then |s| - end else |input|;
           && |input| - n <= |s|
           && Appended(s, offset, length, input)
              == if n < |input| then Overlaid(Overlaid(s, end, input[..n]), 0, input[n..]) else Overlaid(s, end, input[..n]))
      && (end <= offset ==> end + |input| <= |s| && Appended(s, offset, length, input) == Overlaid(s, end, input))
  {
  }

  lemma AppendedAt(s: seq<Byte>, offset: nat, length: nat, input: seq<Byte>, i: nat)
    requires offset < |s| && 0 < length && length + |input| <= |s| && i < length + |input|
    ensures var p := if offset + i < |s| then offset + i else offset + i - |s|;
      Appended(s, offset, length, input)[p] == if i < length then s[p] else input[i - length]
  {
    hide Overlaid;
    EndOffset(|s|, offset, length);
    var end := (offset + length) % |s|;
    var p := if offset + i < |s| then offset + i else offset + i - |s|;
    if end > offset && |input| > |s| - end {
      var n := |s| - end;
      var s' := Overlaid(s, end, input[..n]);
      assert i >= length + n ==> p < |input| - n && input[n..][p] == input[n + p];
      assert p >= |input| - n ==> s'[p] == if i < length then s[p] else input[i - length];
    }
  }

  lemma AppendedRing(s: seq<Byte>, offset: nat, length: nat, input: seq<Byte>)
    requires offset < |s| && 0 < length && length + |input| <= |s|
    ensures Ring(Appended(s, offset, length, input), offset, length + |input|) == Ring(s, offset, length) + input
  {
    var r := Appended(s, offset, length, input);
    var was := Ring(s, offset, length);
    hide Appended, Ring;
    forall i | 0 <= i < length + |input| ensures Ring(r, offset, length + |input|)[i] == (was + input)[i] {
      AppendedAt(s, offset, length, input, i);
      RingAt(r, offset, length + |input|, i);
      if i < length {
        RingAt(s, offset, length, i);
      }
    }
  }

  lemma RingTake(s: seq<Byte>, offset: nat, length: nat, k: nat)
    requires offset < |s| && k <= length <= |s|
    ensures Ring(s, offset, length)[..k] == Ring(s, offset, k)
  {
    hide Ring;
    forall i | 0 <= i < k ensures Ring(s, offset, length)[..k][i] == Ring(s, offset, k)[i] {
      RingAt(s, offset, length, i);
      RingAt(s, offset, k, i);
    }
  }

  /** The data after `k` bytes are taken. */
  lemma RingRest(s: seq<Byte>, offset: nat, length: nat, k: nat)
    requires offset < |s| && k <= length <= |s|
    ensures Ring(s, (offset + k) % |s|, length - k) == Ring(s, offset, length)[k..]
    ensures Ring(s, offset, length)[..k] == Ring(s, offset, k)
  {
    hide Ring;
    EndOffset(|s|, offset, k);
    var o := if offset + k < |s| then offset + k else offset + k - |s|;
    assert o == (offset + k) % |s|;
    forall i | 0 <= i < length - k ensures Ring(s, o, length - k)[i] == Ring(s, offset, length)[k..][i] {
      RingAt(s, o, length - k, i);
      RingAt(s, offset, length, k + i);
    }
    RingTake(s, offset, length, k);
  }

  /** The least multiple of the block size that is not less. */
  function RoundUp(n: nat, block: nat): (r: nat)
    requires block > 0
    ensures n <= r < n + block
  {
    RoundUpBounds(n, block);
    (n + block - 1) / block * block
  }

  lemma RoundUpBounds(n: nat, block: nat)
    requires block > 0
    ensures n <= (n + block - 1) / block * block < n + block
  {
  }

  /** By how much a write grows the buffer. */
  function Added(block: nat, size: nat, length: nat, n: nat): nat
    requires block > 0
  {
    var fits := if length == 0 then size >= RoundUp(n, block) else size >= length + n;
    if n == 0 || fits then 0 else RoundUp(length + n, block) - size
  }

  /** What was in the buffer, as it stands after growing. */
  function Kept(text: Text, s: seq<Byte>, tail: seq<Byte>, offset: nat, length: nat): seq<Byte>
    requires length <= |s| && (length > 0 ==> offset < |s|)
  {
    if length == 0 then []
    else if tail == [] then Ring(s, offset, length)
    else Ring(Regrown(text, s, tail, offset, length), offset, length)
  }

  lemma KeptWell(text: Text, s: seq<Byte>, tail: seq<Byte>, offset: nat, length: nat)
    requires length <= |s| && (if length > 0 then offset < |s| else offset == 0)
    requires text == Corrected || UnwrapsWell(|s|, |tail|, offset, length) || tail == []
    ensures Kept(text, s, tail, offset, length) == Ring(s, offset, length)
  {
    if length > 0 && tail != [] {
      if text == Corrected {
        CorrectedKeeps(s, tail, offset, length);
      } else {
        AsWrittenKeeps(s, tail, offset, length);
      }
    }
  }

  /** The place of the first such byte, or -1. */
  function Find(s: seq<Byte>, c: Byte): (k: int)
    ensures -1 <= k < |s|
    ensures k >= 0 ==> s[k] == c
    ensures forall j :: 0 <= j < (if k < 0 then |s| else k) ==> s[j] != c
  {
    if s == [] then -1
    else if s[0] == c then 0
    else var k := Find(s[1..], c); if k < 0 then -1 else k + 1
  }

  lemma {:induction false} FindConcat(a: seq<Byte>, b: seq<Byte>, c: Byte)
    ensures Find(a + b, c) == if Find(a, c) >= 0 then Find(a, c) else if Find(b, c) >= 0 then |a| + Find(b, c) else -1
  {
    if a == [] {
      assert a + b == b;
    } else {
      assert (a + b)[1..] == a[1..] + b;
      FindConcat(a[1..], b, c);
    }
  }

  lemma FindIs(s: seq<Byte>, k: nat, c: Byte)
    requires k < |s| && s[k] == c && forall j :: 0 <= j < k ==> s[j] != c
    ensures Find(s, c) == k
  {
  }

  lemma NotThere(s: seq<Byte>, c: Byte)
    requires forall k :: 0 <= k < |s| ==> s[k] != c
    ensures Find(s, c) == -1
  {
  }

  /** How many bytes a read takes that ends at the byte at `k`, or with the data. */
  function UpTo(k: int, maxLength: nat, length: nat, inclusive: bool): nat {
    var n := if k < 0 then length else if inclusive then k + 1 else k;
    var m := if maxLength > n then n else maxLength;
    if m > length then length else m
  }

  /** A search of a ring, in one piece or in two. */
  lemma FindInRing(s: seq<Byte>, offset: nat, length: nat, c: Byte)
    requires offset < |s| && length <= |s|
    ensures offset + length <= |s| ==> Find(Ring(s, offset, length), c) == Find(s[offset..offset + length], c)
    ensures offset + length > |s| ==>
              var a, b := Find(s[offset..|s|], c), Find(s[0..offset + length - |s|], c);
              Find(Ring(s, offset, length), c) == if a >= 0 then a else if b >= 0 then |s| - offset + b else -1
  {
    hide Find;
    if offset + length > |s| {
      FindConcat(s[offset..|s|], s[0..offset + length - |s|], c);
      assert Ring(s, offset, length) == s[offset..|s|] + s[0..offset + length - |s|];
    }
  }

  /** The search in a memory that goes on behind the buffer, when it takes `from` for the beginning of the trailing part. */
  function SearchFrom(mem: seq<Byte>, from: nat, size: nat, offset: nat, length: nat, c: Byte): int
    requires from <= size && offset < size && 0 < length <= size && |mem| >= 2 * size
  {
    if offset + length > size then
      var trailing := size - offset;
      var k := Find(mem[from..from + trailing], c);
      if k >= 0 then from + k - offset
      else
        var w := Find(mem[..length - trailing], c);
        if w >= 0 then w + trailing else -1
    else Find(mem[offset..offset + length], c)
  }

  function OffsetAsWritten(mem: seq<Byte>, size: nat, offset: nat, length: nat, c: Byte): int
    requires offset < size && 0 < length <= size && |mem| >= 2 * size
  {
    SearchFrom(mem, length, size, offset, length, c)
  }

  /** Line 180 searches the right bytes only when nothing is wrapped, or when the two numbers are equal. */
  predicate SearchesWell(size: nat, offset: nat, length: nat) {
    offset + length <= size || length == offset
  }

  /** Searching from the data is right, whatever the layout. */
  lemma SearchCorrected(mem: seq<Byte>, size: nat, offset: nat, length: nat, c: Byte)
    requires offset < size && 0 < length <= size && |mem| >= 2 * size
    ensures SearchFrom(mem, offset, size, offset, length, c) == Find(Ring(mem[..size], offset, length), c)
  {
    hide Find, Ring;
    var s := mem[..size];
    FindInRing(s, offset, length, c);
    if offset + length > size {
      assert s[offset..size] == mem[offset..offset + (size - offset)];
      assert s[0..offset + length - size] == mem[..length - (size - offset)];
    } else {
      assert s[offset..offset + length] == mem[offset..offset + length];
    }
  }

  lemma SearchRight(mem: seq<Byte>, size: nat, offset: nat, length: nat, c: Byte)
    requires offset < size && 0 < length <= size && |mem| >= 2 * size && SearchesWell(size, offset, length)
    ensures OffsetAsWritten(mem, size, offset, length, c) == Find(Ring(mem[..size], offset, length), c)
  {
    hide Find, Ring;
    SearchCorrected(mem, size, offset, length, c);
  }

  /** The search in the buffer at the head of that memory. */
  function Searched(text: Text, mem: seq<Byte>, size: nat, offset: nat, length: nat, c: Byte): int
    requires length <= size && |mem| >= 2 * size && (length > 0 ==> offset < size)
  {
    if length == 0 then -1
    else SearchFrom(mem, if text == AsWritten then length else offset, size, offset, length, c)
  }

  lemma SearchedRight(text: Text, mem: seq<Byte>, size: nat, offset: nat, length: nat, c: Byte)
    requires length <= size && |mem| >= 2 * size && (length > 0 ==> offset < size)
    requires text == Corrected || length == 0 || SearchesWell(size, offset, length)
    ensures Searched(text, mem, size, offset, length, c) == if length == 0 then -1 else Find(Ring(mem[..size], offset, length), c)
  {
    hide Find, Ring, SearchFrom;
    if length > 0 {
      if text == Corrected {
        SearchCorrected(mem, size, offset, length, c);
      } else {
        SearchRight(mem, size, offset, length, c);
      }
    }
  }

  /** Otherwise it misses the oldest byte, or the last one before the end of the buffer. */
  lemma SearchWrong(size: nat, offset: nat, length: nat)
    requires offset < size && 0 < length <= size && !SearchesWell(size, offset, length)
    ensures exists mem: seq<Byte> :: |mem| >= 2 * size
              && OffsetAsWritten(mem, size, offset, length, 1) < 0 <= Find(Ring(mem[..size], offset, length), 1)
  {
    hide Find, Ring;
    var place := if length > offset then offset else size - 1;
    var mem := Marked(2 * size, place);
    RingAt(mem[..size], offset, length, place - offset);
    assert Ring(mem[..size], offset, length)[place - offset] == 1;
    NotThere(mem[length..length + (size - offset)], 1);
    NotThere(mem[..length - (size - offset)], 1);
    assert OffsetAsWritten(mem, size, offset, length, 1) == -1;
    assert Find(Ring(mem[..size], offset, length), 1) >= 0;
  }

  lemma SearchesIff(size: nat, offset: nat, length: nat)
    requires offset < size && 0 < length <= size
    ensures (forall mem: seq<Byte>, c :: |mem| >= 2 * size ==>
              OffsetAsWritten(mem, size, offset, length, c) == Find(Ring(mem[..size], offset, length), c))
            <==> offset + length <= size || length == offset
  {
    hide OffsetAsWritten, Ring, Find;
    if SearchesWell(size, offset, length) {
      forall mem: seq<Byte>, c | |mem| >= 2 * size
        ensures OffsetAsWritten(mem, size, offset, length, c) == Find(Ring(mem[..size], offset, length), c)
      {
        SearchRight(mem, size, offset, length, c);
      }
    } else {
      SearchWrong(size, offset, length);
    }
  }

  method Memchr(s: seq<Byte>, c: Byte) returns (k: int)
    ensures k == Find(s, c)
  {
    k := 0;
    while k < |s|
      invariant 0 <= k <= |s|
      invariant forall j :: 0 <= j < k ==> s[j] != c
    {
      if s[k] == c {
        FindIs(s, k, c);
        return;
      }
      k := k + 1;
    }
    NotThere(s, c);
    k := -1;
  }

  method Search(mem: seq<Byte>, from: nat, size: nat, offset: nat, length: nat, c: Byte) returns (k: int)
    requires from <= size && offset < size && 0 < length <= size && |mem| >= 2 * size
    ensures k == SearchFrom(mem, from, size, offset, length, c)
  {
    hide Find;
    if offset + length > size {
      var trailing := size - offset;
      k := Memchr(mem[from..from + trailing], c);
      if k < 0 {
        k := Memchr(mem[..length - trailing], c);
        if k >= 0 {
          k := k + trailing;
        }
      } else {
        k := from + k - offset;
      }
    } else {
      k := Memchr(mem[offset..offset + length], c);
    }
  }

  class ExpandableRingBuffer {
    const blockSize: nat
    const text: Text
    var buffer: array<Byte>
    var dataOffset: nat
    var dataLength: nat

    constructor (blockSize: int, text: Text)
      ensures Valid() && Contents() == [] && fresh(buffer) && buffer.Length == 0
      ensures this.text == text && this.blockSize == if blockSize <= 0 then 8192 else blockSize
    {
      this.blockSize := if blockSize <= 0 then DEFAULT_BLOCK_SIZE else blockSize;
      this.text, dataOffset, dataLength := text, 0, 0;
      buffer := new Byte[0];
    }

    ghost predicate Valid()
      reads this
    {
      && blockSize > 0
      && dataLength <= buffer.Length
      && if dataLength > 0 then dataOffset < buffer.Length else dataOffset == 0
    }

    ghost function Contents(): seq<Byte>
      requires Valid()
      reads this, buffer
    {
      Ring(buffer[..], dataOffset, dataLength)
    }

    /** A write of `n` bytes keeps the data whatever it is. */
    ghost predicate Keeps(n: nat)
      requires Valid()
      reads this
    {
      var added := Added(blockSize, buffer.Length, dataLength, n);
      text == Corrected || added == 0 || UnwrapsWell(buffer.Length, added, dataOffset, dataLength)
    }

    /** A search looks at the data and at nothing else. */
    ghost predicate Searchable()
      requires Valid()
      reads this
    {
      text == Corrected || dataLength == 0 || SearchesWell(buffer.Length, dataOffset, dataLength)
    }

    /** realloc: the new part holds whatever it holds. */
    method Realloc(size: nat) returns (ghost tail: seq<Byte>)
      requires size >= buffer.Length
      modifies this`buffer
      ensures fresh(buffer) && buffer.Length == size
      ensures buffer[..] == old(buffer[..]) + tail
    {
      var bigger := new Byte[size];
      forall k | 0 <= k < buffer.Length {
        bigger[k] := buffer[k];
      }
      tail := bigger[buffer.Length..];
      assert bigger[..] == bigger[..buffer.Length] + tail;
      assert bigger[..buffer.Length] == buffer[..];
      buffer := bigger;
    }

    method Memmove(dst: nat, src: nat, n: nat)
      requires dst + n <= buffer.Length && src + n <= buffer.Length
      modifies buffer
      ensures buffer[..] == Moved(old(buffer[..]), dst, src, n)
    {
      forall k | 0 <= k < n {
        buffer[dst + k] := buffer[src + k];
      }
    }

    method Memcpy(dst: nat, input: seq<Byte>)
      requires dst + |input| <= buffer.Length
      modifies buffer
      ensures buffer[..] == Overlaid(old(buffer[..]), dst, input)
    {
      forall k | 0 <= k < |input| {
        buffer[dst + k] := input[k];
      }
    }

    /** Growing with data in the buffer. */
    method Grow(size: nat) returns (ghost tail: seq<Byte>)
      requires Valid() && dataLength > 0 && size >= buffer.Length
      modifies this`buffer
      ensures fresh(buffer) && buffer.Length == size && |tail| == size - old(buffer.Length)
      ensures buffer[..] == Regrown(text, old(buffer[..]), tail, dataOffset, dataLength)
    {
      hide Moved;
      var oldSize := buffer.Length;
      tail := Realloc(size);
      var end := (dataOffset + dataLength) % oldSize;
      if match text { case AsWritten => end < dataOffset case Corrected => dataOffset + dataLength > oldSize } {
        EndOffset(oldSize, dataOffset, dataLength);
        var n := if end < size - oldSize then end else size - oldSize;
        Memmove(oldSize, 0, n);
        if n < end {
          match text
          case AsWritten => Memmove(n, 0, end - n);
          case Corrected => Memmove(0, n, end - n);
        }
      }
    }

    /** The copying at the end of a write. */
    method Append(input: seq<Byte>)
      requires Valid() && dataLength > 0 && dataLength + |input| <= buffer.Length
      modifies buffer
      ensures buffer[..] == Appended(old(buffer[..]), dataOffset, dataLength, input)
    {
      hide Overlaid, Appended;
      AppendedIs(buffer[..], dataOffset, dataLength, input);
      var end := (dataOffset + dataLength) % buffer.Length;
      if end > dataOffset {
        var trailing := buffer.Length - end;
        assert trailing > 0;
        var n := if |input| > trailing then trailing else |input|;
        Memcpy(end, input[..n]);
        if n < |input| {
          Memcpy(0, input[n..]);
        }
      } else {
        Memcpy(end, input);
      }
    }

    /**
      The buffer holds what was kept of its data, followed by the input.  All of its data is kept by
      the corrected text, and by the text as it is written in the layouts that it unwraps well.
    */
    method WriteData(input: seq<Byte>) returns (ghost tail: seq<Byte>)
      requires Valid()
      modifies this, buffer
      ensures Valid() && (buffer == old(buffer) || fresh(buffer))
      ensures |tail| == Added(blockSize, old(buffer.Length), old(dataLength), |input|)
      ensures buffer.Length == old(buffer.Length) + |tail| && dataOffset == old(dataOffset)
      ensures dataLength == old(dataLength) + |input|
      ensures Contents() == Kept(text, old(buffer[..]), tail, old(dataOffset), old(dataLength)) + input
      ensures old(Keeps(|input|)) ==> Contents() == old(Contents()) + input
    {
      hide Regrown, Appended, Ring, Overlaid;
      tail := [];
      if |input| == 0 {
        KeptWell(text, buffer[..], tail, dataOffset, dataLength);
        return;
      }
      ghost var s, o, l := buffer[..], dataOffset, dataLength;
      if dataLength == 0 {
        tail := WriteFirst(input);
      } else {
        if buffer.Length - dataLength < |input| {
          tail := Grow(RoundUp(dataLength + |input|, blockSize));
        }
        AppendedRing(buffer[..], dataOffset, dataLength, input);
        Append(input);
        dataLength := dataLength + |input|;
      }
      if text == Corrected || tail == [] || UnwrapsWell(|s|, |tail|, o, l) {
        KeptWell(text, s, tail, o, l);
      }
    }

    method WriteFirst(input: seq<Byte>) returns (ghost tail: seq<Byte>)
      requires Valid() && dataLength == 0 && |input| > 0
      modifies this, buffer
      ensures Valid() && (buffer == old(buffer) || fresh(buffer))
      ensures |tail| == Added(blockSize, old(buffer.Length), 0, |input|)
      ensures buffer.Length == old(buffer.Length) + |tail| && dataOffset == 0
      ensures Contents() == input
    {
      tail := [];
      var size := RoundUp(|input|, blockSize);
      if size > buffer.Length {
        tail := Realloc(size);
      }
      dataLength := |input|;
      Memcpy(0, input);
    }

    method Oldest(k: nat) returns (out: seq<Byte>)
      requires Valid() && dataLength > 0 && k <= dataLength
      ensures out == Ring(buffer[..], dataOffset, k)
    {
      if dataOffset + k > buffer.Length {
        var m := buffer.Length - dataOffset;
        out := buffer[dataOffset..] + buffer[..k - m];
      } else {
        out := buffer[dataOffset..dataOffset + k];
      }
    }

    /** The oldest bytes leave the buffer, as many as are asked for and there. */
    method ReadData(n: nat) returns (out: seq<Byte>)
      requires Valid()
      modifies this`dataOffset, this`dataLength
      ensures Valid()
      ensures |out| == if n < old(dataLength) then n else old(dataLength)
      ensures old(Contents()) == out + Contents()
      ensures dataLength == old(dataLength) - |out|
      ensures dataOffset == if dataLength == 0 then 0 else (old(dataOffset) + |out|) % buffer.Length
    {
      hide Ring;
      if dataLength == 0 {
        out := [];
        assert [] + Contents() == Contents();
        return;
      }
      var k := if n > dataLength then dataLength else n;
      out := Oldest(k);
      RingRest(buffer[..], dataOffset, dataLength, k);
      Split(Contents(), k);
      assert k == dataLength ==> Ring(buffer[..], (dataOffset + k) % buffer.Length, 0) == Ring(buffer[..], 0, 0);
      dataOffset := (dataOffset + k) % buffer.Length;
      dataLength := dataLength - k;
      if dataLength == 0 {
        dataOffset := 0;
      }
    }

    method PeekByte() returns (c: Byte)
      requires Valid()
      ensures c == if Contents() == [] then 0 else Contents()[0]
    {
      c := if dataLength == 0 then 0 else buffer[dataOffset];
    }

    /** The memory from the buffer head on: behind the buffer it holds whatever it holds. */
    method Memory() returns (mem: seq<Byte>)
      ensures |mem| == 2 * buffer.Length && mem[..buffer.Length] == buffer[..]
    {
      var behind := new Byte[buffer.Length];
      mem := buffer[..] + behind[..];
    }

    /** The place of the first such byte of the data, or what line 180 takes for it. */
    method OffsetOfByte(c: Byte) returns (k: int, ghost mem: seq<Byte>)
      requires Valid()
      ensures |mem| == 2 * buffer.Length && mem[..buffer.Length] == buffer[..]
      ensures k == Searched(text, mem, buffer.Length, dataOffset, dataLength, c)
      ensures Searchable() ==> k == Find(Contents(), c)
    {
      hide Find, Ring, SearchFrom;
      var memory := Memory();
      mem := memory;
      if dataLength == 0 {
        NotThere(Contents(), c);
        return -1, mem;
      }
      if Searchable() {
        SearchedRight(text, mem, buffer.Length, dataOffset, dataLength, c);
      }
      var from := match text case AsWritten => dataLength case Corrected => dataOffset;
      k := Search(memory, from, buffer.Length, dataOffset, dataLength, c);
    }

    /**
      The data up to the byte, or all of it without that byte; at most `maxLength` bytes.  The place of
      the byte is what the search takes for it, and its first place where the search is right.
    */
    method ReadDataUtilByte(maxLength: nat, c: Byte, inclusive: bool) returns (out: seq<Byte>, ghost mem: seq<Byte>)
      requires Valid()
      modifies this`dataOffset, this`dataLength
      ensures Valid() && old(Contents()) == out + Contents()
      ensures |mem| == 2 * buffer.Length && mem[..buffer.Length] == buffer[..]
      ensures var k := Searched(text, mem, buffer.Length, old(dataOffset), old(dataLength), c);
        |out| == UpTo(k, maxLength, old(dataLength), inclusive)
      ensures old(Searchable()) ==> |out| == UpTo(Find(old(Contents()), c), maxLength, old(dataLength), inclusive)
      ensures dataLength == old(dataLength) - |out|
      ensures dataOffset == if dataLength == 0 then 0 else (old(dataOffset) + |out|) % buffer.Length
    {
      hide Ring, Find;
      var n;
      n, mem := OffsetOfByte(c);
      if dataLength == 0 {
        out := [];
        assert [] + Contents() == Contents();
        return;
      }
      hide Searched;
      if n < 0 {
        n := dataLength;
      } else if inclusive {
        n := n + 1;
      }
      out := ReadData(if maxLength > n then n else maxLength);
    }
  }

  // ------------------------------------------------------------------------------------------
  // How a buffer comes to lose data
  // ------------------------------------------------------------------------------------------

  lemma {:induction false} Multiple(m: int, d: nat)
    ensures m > 0 ==> m * d >= d
    decreases m
  {
    if m > 1 {
      Multiple(m - 1, d);
      assert m * d == (m - 1) * d + d;
    }
  }

  lemma RoundUpIs(n: nat, block: nat, blocks: nat)
    requires block > 0 && blocks * block - block < n <= blocks * block
    ensures RoundUp(n, block) == blocks * block
  {
    var q, r := (n + block - 1) / block, (n + block - 1) % block;
    assert n + block - 1 == q * block + r;
    assert (q - blocks) * block == q * block - blocks * block;
    assert (blocks - q) * block == blocks * block - q * block;
    Multiple(q - blocks, block);
    Multiple(blocks - q, block);
  }

  /** A write that makes it so many blocks. */
  lemma AddedIs(block: nat, size: nat, length: nat, n: nat, blocks: nat)
    requires block > 0 && n > 0 && blocks * block - block < length + n <= blocks * block
    ensures Added(block, size, length, n)
         == if size >= (if length == 0 then blocks * block else length + n) then 0 else blocks * block - size
  {
    hide RoundUp;
    RoundUpIs(length + n, block, blocks);
  }

  lemma Rest(s: seq<Byte>, a: seq<Byte>, b: seq<Byte>, k: nat)
    requires s == a + b && |a| == k
    ensures s[k..] == b
  {
  }

  /** A buffer that is full of `first`, without its first byte, and of `b`, which is wrapped. */
  method FullQueue(first: seq<Byte>, b: Byte) returns (queue: ExpandableRingBuffer)
    requires |first| >= 2
    ensures fresh(queue) && fresh(queue.buffer) && queue.Valid() && queue.text == AsWritten
    ensures queue.blockSize == queue.buffer.Length == queue.dataLength == |first| && queue.dataOffset == 1
    ensures queue.Contents() == first[1..] + [b]
  {
    hide ExpandableRingBuffer.Contents, Kept, Added, Ring;
    var n := |first|;
    queue := new ExpandableRingBuffer(n, AsWritten);
    AddedIs(n, 0, 0, n, 1);
    AddedIs(n, n, n - 1, 1, 1);
    var _ := queue.WriteData(first);
    assert [] + first == first;
    var head := queue.ReadData(1);
    Rest(first, head, queue.Contents(), 1);
    EndOffset(n, 0, 1);
    var _ := queue.WriteData([b]);
  }

  lemma FullRing(queue: ExpandableRingBuffer, data: seq<Byte>)
    requires queue.Valid() && queue.Contents() == data && queue.dataOffset == 1
    requires |data| >= 2 && queue.dataLength == queue.buffer.Length == |data|
    ensures queue.buffer[..][1..] == data[..|data| - 1] && queue.buffer[0] == data[|data| - 1]
  {
  }

  /** What a full ring with one byte at its head is after growing as it is written. */
  lemma FullBecomes(s: seq<Byte>, tail: seq<Byte>)
    requires |s| >= 2 && |tail| > 0
    ensures Kept(AsWritten, s, tail, 1, |s|) == s[1..] + [tail[0]]
  {
    FullIsMissed(s, tail, 1);
  }

  /**
    Line 64 by writing and reading alone: a block is filled, a byte is read and another one written,
    so that the buffer is full and the data wrapped; with the next byte the buffer grows, and whoever
    reads the data finds in place of the wrapped byte what realloc left in the new memory.
  */
  method FullQueueLosesByte(first: seq<Byte>, b: Byte, c: Byte) returns (out: seq<Byte>, ghost left: Byte)
    requires |first| >= 2
    ensures |out| == |first| + 1 && out[..|first| - 1] == first[1..] && out[|first|] == c
    ensures out[|first| - 1] == left
    ensures out == first[1..] + [b] + [c] <==> left == b
  {
    hide ExpandableRingBuffer.Contents, Kept, Added, Ring;
    var n := |first|;
    var queue := FullQueue(first, b);
    FullRing(queue, first[1..] + [b]);
    assert (first[1..] + [b])[..n - 1] == first[1..];
    ghost var s := queue.buffer[..];
    AddedIs(n, n, n, 1, 2);
    ghost var tail := queue.WriteData([c]);
    FullBecomes(s, tail);
    left := tail[0];
    out := queue.ReadData(n + 1);
    Rest(out + queue.Contents(), out, queue.Contents(), n + 1);
    assert out == first[1..] + [left] + [c];
    assert out[n - 1] == left && (first[1..] + [b] + [c])[n - 1] == b;
  }

  /** Two wrapped blocks and one new block: the second of the wrapped blocks becomes a copy of the first. */
  lemma ShortBecomes(block: nat, s: seq<Byte>, tail: seq<Byte>, data: seq<Byte>)
    requires block > 0 && |s| == 4 * block && |tail| == block
    requires Ring(s, 3 * block, 3 * block) == data
    ensures Kept(AsWritten, s, tail, 3 * block, 3 * block)
         == data[..block] + data[block..2 * block] + data[block..2 * block]
  {
    hide Ring, Regrown;
    var r := Regrown(AsWritten, s, tail, 3 * block, 3 * block);
    var wanted := data[..block] + data[block..2 * block] + data[block..2 * block];
    forall k | 0 <= k < 3 * block ensures Ring(r, 3 * block, 3 * block)[k] == wanted[k] {
      RingAt(r, 3 * block, 3 * block, k);
      ShortMoves(block, s, tail, if k < 2 * block then 3 * block + k else k - 2 * block);
      RingAt(s, 3 * block, 3 * block, if k < 2 * block then k else k - block);
    }
  }

  lemma ShortMoves(block: nat, s: seq<Byte>, tail: seq<Byte>, k: nat)
    requires block > 0 && |s| == 4 * block && |tail| == block && k < 5 * block
    ensures Regrown(AsWritten, s, tail, 3 * block, 3 * block)[k]
         == if k < block then s[k] else if k < 2 * block then s[k - block] else if k < 4 * block then s[k] else s[k - 4 * block]
  {
    EndOffset(4 * block, 3 * block, 3 * block);
    var s' := Moved(s + tail, 4 * block, 0, block);
    assert Regrown(AsWritten, s, tail, 3 * block, 3 * block) == Moved(s', block, 0, block);
  }

  /** A buffer of four blocks that holds the last of `first` at its end and `second` at its head. */
  method ShortQueue(block: nat, first: seq<Byte>, second: seq<Byte>) returns (queue: ExpandableRingBuffer)
    requires block > 0 && |first| == 4 * block && |second| == 2 * block
    ensures fresh(queue) && fresh(queue.buffer) && queue.Valid() && queue.text == AsWritten && queue.blockSize == block
    ensures queue.buffer.Length == 4 * block && queue.dataOffset == queue.dataLength == 3 * block
    ensures queue.Contents() == first[3 * block..] + second
  {
    hide ExpandableRingBuffer.Contents, Kept, Added, Ring;
    queue := new ExpandableRingBuffer(block, AsWritten);
    AddedIs(block, 0, 0, 4 * block, 4);
    AddedIs(block, 4 * block, block, 2 * block, 3);
    var _ := queue.WriteData(first);
    assert [] + first == first;
    var head := queue.ReadData(3 * block);
    Rest(first, head, queue.Contents(), 3 * block);
    EndOffset(4 * block, 0, 3 * block);
    var _ := queue.WriteData(second);
  }

  /**
    Line 78 by writing and reading alone: four blocks are written and three of them read, two more
    wrap, and the next write grows the buffer by one block, which is too short for them.  Whoever
    reads the data then finds the first of the two wrapped blocks twice and the second one nowhere.
  */
  method ShortGrowthRepeats(block: nat, first: seq<Byte>, second: seq<Byte>, third: seq<Byte>) returns (out: seq<Byte>)
    requires block > 0 && |first| == 4 * block && |second| == 2 * block && block < |third| <= 2 * block
    ensures out == first[3 * block..] + second[..block] + second[..block] + third
    ensures out == first[3 * block..] + second + third <==> second[..block] == second[block..]
  {
    hide Kept, Added, UnwrapsWell, Ring;
    var queue := ShortQueue(block, first, second);
    ghost var s, data := queue.buffer[..], first[3 * block..] + second;
    AddedIs(block, 4 * block, 3 * block, |third|, 5);
    ghost var tail := queue.WriteData(third);
    ShortBecomes(block, s, tail, data);
    assert data[..block] == first[3 * block..] && data[block..2 * block] == second[..block];
    out := queue.ReadData(queue.dataLength);
    Rest(out + queue.Contents(), out, queue.Contents(), |out|);
    TwiceIff(first[3 * block..], second, third, block);
  }

  lemma TwiceIff(a: seq<Byte>, second: seq<Byte>, third: seq<Byte>, block: nat)
    requires |second| == 2 * block
    ensures a + second[..block] + second[..block] + third == a + second + third <==> second[..block] == second[block..]
  {
    var x, y := a + second[..block] + second[..block] + third, a + second + third;
    assert second[..block] + second[block..] == second;
    assert x[|a| + block..|a| + 2 * block] == second[..block];
    assert y[|a| + block..|a| + 2 * block] == second[block..];
    if second[..block] == second[block..] {
      assert a + second[..block] + second[..block] == a + (second[..block] + second[..block]);
    }
  }

  /**
    Line 180 by writing and reading alone: a block is filled, a byte is read and another one written.
    The byte to read up to is the oldest of the data, but the search does not look at it.
  */
  method SearchMissesOldest(first: seq<Byte>, b: Byte) returns (out: seq<Byte>)
    requires |first| >= 2 && first[1] != b
    ensures |out| > 1 && out <= first[1..] + [b]
  {
    hide Ring, Find;
    var n := |first|;
    var queue := FullQueue(first, b);
    FullRing(queue, first[1..] + [b]);
    ghost var mem;
    out, mem := queue.ReadDataUtilByte(n, first[1], true);
    assert mem[..1] == [b] by {
      assert mem[0] == mem[..n][0];
    }
    NotThere(mem[..1], first[1]);
  }
}
