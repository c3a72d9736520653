/**
  Message layouts.  `processMsg` decodes each message type with a straight run of DECODE_FIELD
  macros, broken by tests on fields already decoded and by loops over a decoded count.  A
  `Layout` is one such run; `Parse` executes it on a buffer.  What matters about the decoder
  is proved here once, by structural induction over the layout, and so holds for every message.
*/
module IbLayout {
  import opened Sequences
  import opened Wrappers
  import opened Decimal
  import opened IbFields
  import opened IbStream

  datatype Test =
    | AtLeast(field: string, bound: int)
    | Equals(field: string, n: int)
    | ServerIs(version: int)
    | NonEmpty(field: string)
    | Positive(field: string)
    | Not(t: Test)
    | Both(t0: Test, t1: Test)
    | Either(t0: Test, t1: Test)

  datatype Layout =
    | End
    // DECODE_FIELD, once for each name
    | Fields(names: seq<string>, rest: Layout)
    // if (test) { body }
    | When(test: Test, body: Layout, rest: Layout)
    // reserve(count); for (i < count) { DECODE_FIELD, once for each name }
    | Counted(count: string, names: seq<string>, rest: Layout)

  /** The text decoded into a variable; no layout decodes a variable twice. */
  function Lookup(t: Trace, name: string): string {
    if t == [] then ""
    else if t[0].name == name then t[0].text
    else Lookup(t[1..], name)
  }

  function IntOf(t: Trace, name: string): int {
    Atoi(Lookup(t, name))
  }

  predicate Holds(test: Test, serverVersion: int, t: Trace) {
    match test
    case AtLeast(field, bound) => IntOf(t, field) >= bound
    case Equals(field, n) => IntOf(t, field) == n
    case ServerIs(version) => serverVersion == version
    case NonEmpty(field) => Lookup(t, field) != ""
    case Positive(field) => IntOf(t, field) > 0
    case Not(t0) => !Holds(t0, serverVersion, t)
    case Both(t0, t1) => Holds(t0, serverVersion, t) && Holds(t1, serverVersion, t)
    case Either(t0, t1) => Holds(t0, serverVersion, t) || Holds(t1, serverVersion, t)
  }

  /**
    How decoding a message can end: the buffer holds too little of it, the vector that is to
    hold the items refuses a negative size, or the message is complete.
  */
  datatype Parsed =
    | Short
    | Throws
    | Got(trace: Trace, rest: string)

  function ReadAll(names: seq<string>, t: Trace, b: string): Parsed {
    if names == [] then Got(t, b)
    else
      match NextField(b)
      case None => Short
      case Some((text, rest)) => ReadAll(names[1..], t + [Field(names[0], text)], rest)
  }

  /** The names of the fields of `n` items, one item after the other. */
  function Repeated(names: seq<string>, n: nat): seq<string> {
    if n == 0 then [] else names + Repeated(names, n - 1)
  }

  function Parse(l: Layout, serverVersion: int, t: Trace, b: string): Parsed
    decreases l, 0
  {
    match l
    case End => Got(t, b)
    case Fields(names, rest) =>
      Then(ReadAll(names, t, b), rest, serverVersion)
    case When(test, body, rest) =>
      if Holds(test, serverVersion, t)
      then Then(Parse(body, serverVersion, t, b), rest, serverVersion)
      else Parse(rest, serverVersion, t, b)
    case Counted(count, names, rest) =>
      if IntOf(t, count) < 0 then Throws
      else Then(ReadAll(Repeated(names, IntOf(t, count)), t, b), rest, serverVersion)
  }

  function Then(p: Parsed, l: Layout, serverVersion: int): Parsed
    decreases l, 1
  {
    if p.Got? then Parse(l, serverVersion, p.trace, p.rest) else p
  }

  /** The fields that decoding has added to `t`. */
  function Added(p: Parsed, t: Trace): Trace {
    if p.Got? && |t| <= |p.trace| then p.trace[|t|..] else []
  }

  /** The bytes of a run of fields. */
  function Wire(t: Trace): string {
    if t == [] then "" else t[0].text + [NUL] + Wire(t[1..])
  }

  lemma {:induction false} WireAppend(t: Trace, u: Trace)
    ensures Wire(t + u) == Wire(t) + Wire(u)
  {
    if t == [] {
      assert t + u == u;
    } else {
      assert (t + u)[1..] == t[1..] + u;
      WireAppend(t[1..], u);
    }
  }

  /**
    `p` is the outcome of decoding `b` on top of `t`: what was added to the trace is, byte for
    byte, what was taken off the buffer.
  */
  ghost predicate Exact(p: Parsed, t: Trace, b: string) {
    p.Got? ==>
      && t <= p.trace
      && b == Wire(Added(p, t)) + p.rest
      && forall k :: |t| <= k < |p.trace| ==> NoNul(p.trace[k].text)
  }

  lemma ExactTrans(p: Parsed, t: Trace, b: string, q: Parsed)
    requires p.Got? && Exact(p, t, b) && Exact(q, p.trace, p.rest)
    ensures Exact(q, t, b)
  {
    if q.Got? {
      assert q.trace[|t|..] == p.trace[|t|..] + q.trace[|p.trace|..];
      WireAppend(p.trace[|t|..], q.trace[|p.trace|..]);
      Assoc(Wire(p.trace[|t|..]), Wire(q.trace[|p.trace|..]), q.rest);
    }
  }

  lemma OneFieldExact(name: string, t: Trace, b: string)
    requires NextField(b).Some?
    ensures Exact(Got(t + [Field(name, NextField(b).value.0)], NextField(b).value.1), t, b)
  {
  }

  lemma {:induction false} ReadAllExact(names: seq<string>, t: Trace, b: string)
    ensures Exact(ReadAll(names, t, b), t, b)
    ensures ReadAll(names, t, b).Got? ==> |ReadAll(names, t, b).trace| == |t| + |names|
    decreases |names|
  {
    if names == [] {
      assert t[|t|..] == [] && b == "" + b;
    } else if NextField(b).Some? {
      var (text, rest) := NextField(b).value;
      var u := t + [Field(names[0], text)];
      OneFieldExact(names[0], t, b);
      ReadAllExact(names[1..], u, rest);
      ExactTrans(Got(u, rest), t, b, ReadAll(names[1..], u, rest));
    }
  }

  /** A complete message is exactly its own fields: nothing skipped, nothing read twice. */
  lemma {:induction false} ParseExact(l: Layout, sv: int, t: Trace, b: string)
    ensures Exact(Parse(l, sv, t, b), t, b)
    decreases l
  {
    match l
    case End =>
      assert t[|t|..] == [] && b == "" + b;
    case Fields(names, rest) =>
      var p := ReadAll(names, t, b);
      ReadAllExact(names, t, b);
      if p.Got? {
        ParseExact(rest, sv, p.trace, p.rest);
        ExactTrans(p, t, b, Then(p, rest, sv));
      }
    case When(test, body, rest) =>
      if Holds(test, sv, t) {
        var p := Parse(body, sv, t, b);
        ParseExact(body, sv, t, b);
        if p.Got? {
          ParseExact(rest, sv, p.trace, p.rest);
          ExactTrans(p, t, b, Then(p, rest, sv));
        }
      } else {
        ParseExact(rest, sv, t, b);
      }
    case Counted(count, names, rest) =>
      if IntOf(t, count) >= 0 {
        var p := ReadAll(Repeated(names, IntOf(t, count)), t, b);
        ReadAllExact(Repeated(names, IntOf(t, count)), t, b);
        if p.Got? {
          ParseExact(rest, sv, p.trace, p.rest);
          ExactTrans(p, t, b, Then(p, rest, sv));
        }
      }
  }

  /** The same outcome with `more` bytes standing behind the unread ones. */
  function Extended(p: Parsed, more: string): Parsed {
    if p.Got? then Got(p.trace, p.rest + more) else p
  }

  lemma {:induction false} ReadAllStable(names: seq<string>, t: Trace, b: string, more: string)
    ensures var p := ReadAll(names, t, b);
      !p.Short? ==> ReadAll(names, t, b + more) == Extended(p, more)
    decreases |names|
  {
    if names != [] && NextField(b).Some? {
      NextFieldStable(b, more);
      var (text, rest) := NextField(b).value;
      ReadAllStable(names[1..], t + [Field(names[0], text)], rest, more);
    }
  }

  /**
    Prefix stability: once decoding has reached a verdict other than "not enough bytes yet",
    bytes that arrive later cannot change it.
  */
  lemma {:induction false} ParseStable(l: Layout, sv: int, t: Trace, b: string, more: string)
    ensures var p := Parse(l, sv, t, b);
      !p.Short? ==> Parse(l, sv, t, b + more) == Extended(p, more)
    decreases l
  {
    match l
    case End =>
    case Fields(names, rest) =>
      var p := ReadAll(names, t, b);
      ReadAllStable(names, t, b, more);
      if p.Got? {
        ParseStable(rest, sv, p.trace, p.rest, more);
      }
    case When(test, body, rest) =>
      if Holds(test, sv, t) {
        var p := Parse(body, sv, t, b);
        ParseStable(body, sv, t, b, more);
        if p.Got? {
          ParseStable(rest, sv, p.trace, p.rest, more);
        }
      } else {
        ParseStable(rest, sv, t, b, more);
      }
    case Counted(count, names, rest) =>
      if IntOf(t, count) >= 0 {
        var p := ReadAll(Repeated(names, IntOf(t, count)), t, b);
        ReadAllStable(Repeated(names, IntOf(t, count)), t, b, more);
        if p.Got? {
          ParseStable(rest, sv, p.trace, p.rest, more);
        }
      }
  }

  /** The fields called `names` with the given texts. */
  function Labelled(names: seq<string>, texts: seq<string>): Trace
    requires |names| == |texts|
  {
    if names == [] then [] else [Field(names[0], texts[0])] + Labelled(names[1..], texts[1..])
  }

  lemma LabelledCons(names: seq<string>, text: string, texts: seq<string>)
    requires |names| == |texts| + 1
    ensures Labelled(names, [text] + texts) == [Field(names[0], text)] + Labelled(names[1..], texts)
  {
  }

  lemma ReadAllStep(names: seq<string>, t: Trace, text: string, rest: string)
    requires names != [] && NoNul(text)
    ensures ReadAll(names, t, text + [NUL] + rest) == ReadAll(names[1..], t + [Field(names[0], text)], rest)
  {
    NextFieldOf(text, rest);
  }

  lemma WireCons(first: Field, others: Trace, tail: string)
    ensures Wire([first] + others) + tail == first.text + [NUL] + (Wire(others) + tail)
  {
  }

  /** Reading a run of fields back from its wire form, whatever follows. */
  lemma {:induction false} ReadAllOfWire(names: seq<string>, texts: seq<string>, t: Trace, other: string)
    requires |names| == |texts|
    requires forall s :: s in texts ==> NoNul(s)
    ensures ReadAll(names, t, Wire(Labelled(names, texts)) + other) == Got(t + Labelled(names, texts), other)
    decreases |names|
  {
    if names == [] {
      assert "" + other == other && t + [] == t;
    } else {
      var first, others := Field(names[0], texts[0]), Labelled(names[1..], texts[1..]);
      ReadAllOfWire(names[1..], texts[1..], t + [first], other);
      WireCons(first, others, other);
      ReadAllStep(names, t, texts[0], Wire(others) + other);
      assert t + ([first] + others) == t + [first] + others;
    }
  }

  /** What a run of fields adds to the trace: its names, with texts that hold no NUL. */
  lemma {:induction false} ReadAllAdds(names: seq<string>, t: Trace, b: string) returns (texts: seq<string>)
    requires ReadAll(names, t, b).Got?
    ensures |texts| == |names| && forall s :: s in texts ==> NoNul(s)
    ensures ReadAll(names, t, b).trace == t + Labelled(names, texts)
    decreases |names|
  {
    texts := [];
    if names == [] {
      assert t + [] == t;
    } else {
      var (text, rest) := NextField(b).value;
      var others := ReadAllAdds(names[1..], t + [Field(names[0], text)], rest);
      texts := [text] + others;
      LabelledCons(names, text, others);
      Assoc(t, [Field(names[0], text)], Labelled(names[1..], others));
      hide Labelled, ReadAll, NextField;
    }
  }

  lemma ReadAllNoLookahead(names: seq<string>, t: Trace, b: string, other: string)
    ensures var p := ReadAll(names, t, b);
      p.Got? ==> ReadAll(names, t, Wire(Added(p, t)) + other) == Got(p.trace, other)
  {
    var p := ReadAll(names, t, b);
    if p.Got? {
      var texts := ReadAllAdds(names, t, b);
      ReadAllOfWire(names, texts, t, other);
      assert Added(p, t) == Labelled(names, texts);
    }
  }

  /**
    No lookahead: the verdict on a message depends on the message's own bytes and on nothing
    behind them.  With `ParseExact` this makes the messages of a layout a prefix code: a stream
    can be cut into messages in one way only.
  */
  lemma {:induction false} ParseNoLookahead(l: Layout, sv: int, t: Trace, b: string, other: string)
    ensures var p := Parse(l, sv, t, b);
      p.Got? ==> Parse(l, sv, t, Wire(Added(p, t)) + other) == Got(p.trace, other)
    decreases l, 0
  {
    var q := Parse(l, sv, t, b);
    if q.Got? {
      match l
      case End =>
        assert q.trace[|t|..] == [] && "" + other == other;
      case Fields(names, rest) =>
        var p := ReadAll(names, t, b);
        assert q == Then(p, rest, sv);
        ReadAllExact(names, t, b);
        ReadAllNoLookahead(names, t, b, Wire(Added(q, p.trace)) + other);
        Seam(p, q, rest, sv, t, other);
      case When(test, body, rest) =>
        if Holds(test, sv, t) {
          var p := Parse(body, sv, t, b);
          assert q == Then(p, rest, sv);
          ParseExact(body, sv, t, b);
          ParseExact(rest, sv, p.trace, p.rest);
          ParseNoLookahead(body, sv, t, b, Wire(Added(q, p.trace)) + other);
          Seam(p, q, rest, sv, t, other);
        } else {
          ParseNoLookahead(rest, sv, t, b, other);
        }
      case Counted(count, names, rest) =>
        var p := ReadAll(Repeated(names, IntOf(t, count)), t, b);
        assert q == Then(p, rest, sv);
        ReadAllExact(Repeated(names, IntOf(t, count)), t, b);
        ReadAllNoLookahead(Repeated(names, IntOf(t, count)), t, b, Wire(Added(q, p.trace)) + other);
        Seam(p, q, rest, sv, t, other);
    }
  }

  /** The step of `ParseNoLookahead` from one part of a layout to the rest of it. */
  lemma {:induction false} Seam(p: Parsed, q: Parsed, rest: Layout, sv: int, t: Trace, other: string)
    requires p.Got? && q.Got? && t <= p.trace && q == Parse(rest, sv, p.trace, p.rest)
    ensures p.trace <= q.trace
    ensures Wire(Added(q, t)) + other == Wire(Added(p, t)) + (Wire(Added(q, p.trace)) + other)
    ensures Parse(rest, sv, p.trace, Wire(Added(q, p.trace)) + other) == Got(q.trace, other)
    decreases rest, 1
  {
    hide Parse, Wire;
    ParseExact(rest, sv, p.trace, p.rest);
    Assoc(Wire(Added(p, t)), Wire(Added(q, p.trace)), other);
    assert q.trace[|t|..] == p.trace[|t|..] + q.trace[|p.trace|..];
    WireAppend(p.trace[|t|..], q.trace[|p.trace|..]);
    ParseNoLookahead(rest, sv, p.trace, p.rest, other);
  }

  // ------------------------------------------------------------------------------------------
  // How many fields a message has
  // ------------------------------------------------------------------------------------------

  /** The number of fields of a message, as the message itself, once complete, tells it. */
  function Size(l: Layout, sv: int, t: Trace): int {
    match l
    case End => 0
    case Fields(names, rest) => |names| + Size(rest, sv, t)
    case When(test, body, rest) => (if Holds(test, sv, t) then Size(body, sv, t) else 0) + Size(rest, sv, t)
    case Counted(count, names, rest) => IntOf(t, count) * |names| + Size(rest, sv, t)
  }

  predicate Decoded(t: Trace, name: string) {
    exists k :: 0 <= k < |t| && t[k].name == name
  }

  function TestedNames(test: Test): seq<string> {
    match test
    case AtLeast(field, _) => [field]
    case Equals(field, _) => [field]
    case ServerIs(_) => []
    case NonEmpty(field) => [field]
    case Positive(field) => [field]
    case Not(t0) => TestedNames(t0)
    case Both(t0, t1) => TestedNames(t0) + TestedNames(t1)
    case Either(t0, t1) => TestedNames(t0) + TestedNames(t1)
  }

  /** No test and no count looks at a variable that has not been decoded. */
  predicate Sighted(l: Layout, seen: seq<string>) {
    match l
    case End => true
    case Fields(names, rest) => Sighted(rest, seen + names)
    case When(test, body, rest) =>
      && (forall name :: name in TestedNames(test) ==> name in seen)
      && Sighted(body, seen) && Sighted(rest, seen)
    case Counted(count, _, rest) => count in seen && Sighted(rest, seen)
  }

  lemma {:induction false} SightedMore(l: Layout, seen: seq<string>, more: seq<string>)
    requires Sighted(l, seen) && forall name :: name in seen ==> name in more
    ensures Sighted(l, more)
  {
    match l
    case End =>
    case Fields(names, rest) => SightedMore(rest, seen + names, more + names);
    case When(_, body, rest) => SightedMore(body, seen, more); SightedMore(rest, seen, more);
    case Counted(_, _, rest) => SightedMore(rest, seen, more);
  }

  ghost predicate AllDecoded(seen: seq<string>, t: Trace) {
    forall name :: name in seen ==> Decoded(t, name)
  }

  lemma {:induction false} LookupStays(t: Trace, u: Trace, name: string)
    requires t <= u && Decoded(t, name)
    ensures Decoded(u, name) && Lookup(u, name) == Lookup(t, name)
  {
    var k :| 0 <= k < |t| && t[k].name == name;
    assert u[k].name == name;
    if t[0].name != name {
      assert t[1..][k - 1].name == name;
      LookupStays(t[1..], u[1..], name);
    }
  }

  lemma {:induction false} HoldsStays(test: Test, sv: int, t: Trace, u: Trace)
    requires t <= u && AllDecoded(TestedNames(test), t)
    ensures Holds(test, sv, u) == Holds(test, sv, t)
  {
    forall name | name in TestedNames(test) ensures Lookup(u, name) == Lookup(t, name) {
      LookupStays(t, u, name);
    }
    match test
    case Not(t0) => HoldsStays(t0, sv, t, u);
    case Both(t0, t1) => HoldsStays(t0, sv, t, u); HoldsStays(t1, sv, t, u);
    case Either(t0, t1) => HoldsStays(t0, sv, t, u); HoldsStays(t1, sv, t, u);
    case _ =>
  }

  lemma AllDecodedStays(seen: seq<string>, t: Trace, u: Trace)
    requires t <= u && AllDecoded(seen, t)
    ensures AllDecoded(seen, u)
  {
  }

  lemma {:induction false} RunDecodes(seen: seq<string>, names: seq<string>, t: Trace, b: string)
    requires AllDecoded(seen, t) && ReadAll(names, t, b).Got?
    ensures AllDecoded(seen + names, ReadAll(names, t, b).trace)
    decreases |names|
  {
    if names == [] {
      assert seen + names == seen;
    } else {
      var (text, rest) := NextField(b).value;
      var u := t + [Field(names[0], text)];
      AllDecodedStays(seen, t, u);
      assert u[|t|].name == names[0];
      assert seen + names == seen + [names[0]] + names[1..];
      RunDecodes(seen + [names[0]], names[1..], u, rest);
    }
  }

  lemma {:induction false} RepeatedLength(names: seq<string>, n: nat)
    ensures |Repeated(names, n)| == n * |names|
  {
    if n > 0 {
      RepeatedLength(names, n - 1);
    }
  }

  /**
    A message that has been decoded has exactly the fields that its own content announces: the
    tests taken on the way come out the same on the finished message.
  */
  lemma {:induction false} ParseSize(l: Layout, sv: int, seen: seq<string>, t: Trace, b: string)
    requires Sighted(l, seen) && AllDecoded(seen, t)
    ensures var p := Parse(l, sv, t, b);
      p.Got? ==> t <= p.trace && |p.trace| == |t| + Size(l, sv, p.trace)
    decreases l
  {
    var q := Parse(l, sv, t, b);
    if q.Got? {
      match l
      case End =>
      case Fields(names, rest) =>
        var p := ReadAll(names, t, b);
        assert q == Then(p, rest, sv) && p.Got?;
        ReadAllExact(names, t, b);
        RunDecodes(seen, names, t, b);
        ParseSize(rest, sv, seen + names, p.trace, p.rest);
      case When(test, body, rest) =>
        if Holds(test, sv, t) {
          var p := Parse(body, sv, t, b);
          ParseSize(body, sv, seen, t, b);
          AllDecodedStays(seen, t, p.trace);
          ParseSize(rest, sv, seen, p.trace, p.rest);
          SizeStays(body, sv, seen, t, p.trace, q.trace, b);
        } else {
          ParseSize(rest, sv, seen, t, b);
        }
        HoldsStays(test, sv, t, q.trace);
      case Counted(count, names, rest) =>
        var n := IntOf(t, count);
        var p := ReadAll(Repeated(names, n), t, b);
        ReadAllExact(Repeated(names, n), t, b);
        RepeatedLength(names, n);
        AllDecodedStays(seen, t, p.trace);
        ParseSize(rest, sv, seen, p.trace, p.rest);
        LookupStays(t, q.trace, count);
    }
  }

  /** What is decoded after a part of a message does not change the size of that part. */
  lemma {:induction false} SizeStays(l: Layout, sv: int, seen: seq<string>, t: Trace, u: Trace, v: Trace, b: string)
    requires Sighted(l, seen) && AllDecoded(seen, t)
    requires Parse(l, sv, t, b).Got? && u == Parse(l, sv, t, b).trace && t <= u <= v
    ensures Size(l, sv, v) == Size(l, sv, u)
    decreases l
  {
    match l
    case End =>
    case Fields(names, rest) =>
      var p := ReadAll(names, t, b);
      assert Parse(l, sv, t, b) == Then(p, rest, sv);
      assert p.Got? && AllDecoded(seen, t);
      ReadAllExact(names, t, b);
      RunDecodes(seen, names, t, b);
      ParseExact(rest, sv, p.trace, p.rest);
      SizeStays(rest, sv, seen + names, p.trace, u, v, p.rest);
    case When(test, body, rest) =>
      HoldsStays(test, sv, t, u);
      HoldsStays(test, sv, t, v);
      if Holds(test, sv, t) {
        var p := Parse(body, sv, t, b);
        ParseExact(body, sv, t, b);
        ParseExact(rest, sv, p.trace, p.rest);
        AllDecodedStays(seen, t, p.trace);
        SizeStays(body, sv, seen, t, p.trace, u, b);
        SizeStays(body, sv, seen, t, p.trace, v, b);
        SizeStays(rest, sv, seen, p.trace, u, v, p.rest);
      } else {
        SizeStays(rest, sv, seen, t, u, v, b);
      }
    case Counted(count, names, rest) =>
      var n := IntOf(t, count);
      var p := ReadAll(Repeated(names, n), t, b);
      ReadAllExact(Repeated(names, n), t, b);
      ParseExact(rest, sv, p.trace, p.rest);
      AllDecodedStays(seen, t, p.trace);
      LookupStays(t, u, count);
      LookupStays(t, v, count);
      SizeStays(rest, sv, seen, p.trace, u, v, p.rest);
  }
}
