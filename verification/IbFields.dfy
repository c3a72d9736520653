/**
  The field layer of the Interactive Brokers wire format: a message is a run of fields, each
  field is its text followed by a NUL, and nothing on the wire says how many fields there are.
*/
module IbFields {
  import opened Wrappers
  import opened Decimal

  const NUL: char := '\0'

  /** "Max" fields spell this value as an empty field, on the way out and on the way in. */
  const UNSET_INTEGER: int := INT_MAX

  predicate NoNul(s: string) {
    forall k :: 0 <= k < |s| ==> s[k] != '\0'
  }

  /** memchr(buffer, 0, size): the offset of the first NUL, or the size when there is none. */
  function FieldEnd(b: string): (k: nat)
    ensures k <= |b| && NoNul(b[..k])
    ensures k < |b| ==> b[k] == NUL
  {
    if b == "" || b[0] == NUL then 0
    else
      var k := 1 + FieldEnd(b[1..]);
      assert b[..k] == [b[0]] + b[1..][..k - 1];
      k
  }

  /** One DecodeField: the text of the first field and the bytes after its NUL. */
  function NextField(b: string): (r: Option<(string, string)>)
    ensures r.Some? ==> b == r.value.0 + [NUL] + r.value.1 && NoNul(r.value.0)
    ensures r.None? <==> NoNul(b)
  {
    var k := FieldEnd(b);
    if k == |b| then
      assert b[..k] == b;
      None
    else
      Some((b[..k], b[k + 1..]))
  }

  /** Where a field ends is decided by the bytes up to its NUL alone. */
  lemma NextFieldOf(text: string, rest: string)
    requires NoNul(text)
    ensures NextField(text + [NUL] + rest) == Some((text, rest))
  {
    var b := text + [NUL] + rest;
    var k := FieldEnd(b);
    assert b[|text|] == NUL;
    assert k == |text|;
    assert b[..|text|] == text && b[|text| + 1..] == rest;
  }

  lemma NextFieldStable(b: string, more: string)
    ensures NextField(b).Some? ==>
              NextField(b + more) == Some((NextField(b).value.0, NextField(b).value.1 + more))
  {
    if NextField(b).Some? {
      var (text, rest) := NextField(b).value;
      NextFieldOf(text, rest + more);
      assert b + more == text + [NUL] + (rest + more);
    }
  }

  // ------------------------------------------------------------------------------------------
  // Typed fields
  // ------------------------------------------------------------------------------------------

  datatype Kind = TextKind | BoolKind | IntKind | MaxIntKind

  datatype Value = Text(text: string) | Bool(flag: bool) | Int(n: int) | MaxInt(limit: int)

  function KindOf(v: Value): Kind {
    match v
    case Text(_) => TextKind
    case Bool(_) => BoolKind
    case Int(_) => IntKind
    case MaxInt(_) => MaxIntKind
  }

  /** EncodeField and EncodeFieldMax, without the NUL. */
  function ValueText(v: Value): string {
    match v
    case Text(s) => s
    case Bool(flag) => IntText(if flag then 1 else 0)
    case Int(n) => IntText(n)
    case MaxInt(n) => if n == INT_MAX then "" else IntText(n)
  }

  /** DecodeField and DecodeFieldMax, once the text of the field is known. */
  function ParseValue(kind: Kind, text: string): Value {
    match kind
    case TextKind => Text(text)
    case BoolKind => Bool(Atoi(text) > 0)
    case IntKind => Int(Atoi(text))
    case MaxIntKind => MaxInt(if text == "" then UNSET_INTEGER else Atoi(text))
  }

  function EncodeValues(vs: seq<Value>): string {
    if vs == [] then "" else ValueText(vs[0]) + [NUL] + EncodeValues(vs[1..])
  }

  function DecodeValues(kinds: seq<Kind>, b: string): Option<(seq<Value>, string)> {
    if kinds == [] then Some(([], b))
    else
      var (text, rest) :- NextField(b);
      var (vs, end) :- DecodeValues(kinds[1..], rest);
      Some(([ParseValue(kinds[0], text)] + vs, end))
  }

  function Kinds(vs: seq<Value>): seq<Kind> {
    seq(|vs|, k requires 0 <= k < |vs| => KindOf(vs[k]))
  }

  /** A value the C++ type of the field can hold. */
  predicate Representable(v: Value) {
    (v.Int? ==> -0x8000_0000 <= v.n <= 0x7fff_ffff) && (v.MaxInt? ==> -0x8000_0000 <= v.limit <= 0x7fff_ffff)
  }

  /** On the wire a flag is a 1 or a 0 and is set when the number is positive; the largest 32-bit int is an empty max field. */
  lemma WireTexts(text: string, n: int)
    ensures ValueText(Bool(true)) == "1" && ValueText(Bool(false)) == "0"
    ensures ParseValue(BoolKind, text) == Bool(Atoi(text) > 0)
    ensures ValueText(Int(n)) == IntText(n) && ParseValue(IntKind, text) == Int(Atoi(text))
    ensures ValueText(MaxInt(n)) == if n == 0x7fff_ffff then "" else IntText(n)
    ensures ParseValue(MaxIntKind, text) == MaxInt(if text == "" then 0x7fff_ffff else Atoi(text))
  {
  }

  lemma ValueRoundTrip(v: Value)
    requires Representable(v)
    ensures ParseValue(KindOf(v), ValueText(v)) == v
    ensures !v.Text? ==> NoNul(ValueText(v))
  {
    match v
    case Text(_) =>
    case Bool(flag) =>
      AtoiIntText(if flag then 1 else 0);
      IntTextChars(if flag then 1 else 0);
    case Int(n) =>
      AtoiIntText(n);
      IntTextChars(n);
    case MaxInt(n) =>
      AtoiIntText(n);
      IntTextChars(n);
  }

  /**
    A record of representable values comes back from its encoding, and decoding stops exactly
    at its end, if and only if none of its strings holds a NUL.
  */
  lemma {:induction false} RecordRoundTrip(vs: seq<Value>, tail: string)
    requires forall v :: v in vs ==> Representable(v)
    ensures DecodeValues(Kinds(vs), EncodeValues(vs) + tail) == Some((vs, tail))
            <==> forall v :: v in vs && v.Text? ==> NoNul(v.text)
  {
    if vs == [] {
      assert Kinds(vs) == [] && EncodeValues(vs) + tail == tail;
    } else {
      var first, rest := vs[0], EncodeValues(vs[1..]) + tail;
      assert vs == [first] + vs[1..];
      assert EncodeValues(vs) + tail == ValueText(first) + [NUL] + rest;
      assert Kinds(vs)[1..] == Kinds(vs[1..]);
      RecordRoundTrip(vs[1..], tail);
      ValueRoundTrip(first);
      if NoNul(ValueText(first)) {
        NextFieldOf(ValueText(first), rest);
        assert DecodeValues(Kinds(vs), EncodeValues(vs) + tail) == Some((vs, tail)) <==>
               DecodeValues(Kinds(vs[1..]), rest) == Some((vs[1..], tail)) by {
          if DecodeValues(Kinds(vs), EncodeValues(vs) + tail) == Some((vs, tail)) {
            var (ws, end) := DecodeValues(Kinds(vs[1..]), rest).value;
            assert ([first] + ws)[1..] == ws;
          }
        }
      }
    }
  }
}
