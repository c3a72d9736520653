/**
  The fixed-width fields of an ITCH packet: text is padded on the right and trimmed when it is read,
  numbers are padded on the left and read by strtol.
*/
module ItchPacket {
  import opened Wrappers
  import opened Sequences
  import opened Decimal

  const NUL: char := '\0'

  function Blanks(n: nat): (s: string)
    ensures |s| == n && forall k :: 0 <= k < n ==> s[k] == ' '
  {
    if n == 0 then "" else " " + Blanks(n - 1)
  }

  /** boost::trim_right. */
  function TrimRight(s: string): string {
    if s != "" && IsSpace(s[|s| - 1]) then TrimRight(s[..|s| - 1]) else s
  }

  /** The text without the white space at its end: that and no more goes. */
  ghost predicate Trimmed(s: string, r: string) {
    && r <= s
    && (forall k :: |r| <= k < |s| ==> s[k] == ' ' || '\t' <= s[k] <= '\r')
    && (r != "" ==> r[|r| - 1] != ' ' && !('\t' <= r[|r| - 1] <= '\r'))
  }

  lemma {:induction false} TrimRightIs(s: string)
    ensures Trimmed(s, TrimRight(s))
  {
    if s != "" && IsSpace(s[|s| - 1]) {
      TrimRightIs(s[..|s| - 1]);
    }
  }

  /** What C sees of a string: it ends at the first NUL. */
  function CText(s: string): (r: string)
    ensures '\0' !in r && r <= s && (r != s ==> s[|r|] == '\0')
  {
    if s == "" || s[0] == NUL then "" else [s[0]] + CText(s[1..])
  }

  /** strtol over the whole text, without a range error. */
  function Strtol(s: string): Option<int> {
    if Unread(s) != "" || !IsInt64(ExactValue(s)) then None else Some(ExactValue(s))
  }

  datatype Field = Text(s: string, width: nat) | Number(n: int, width: nat)

  predicate Fits(f: Field) {
    match f
    case Text(s, width) => |CText(s)| <= width
    case Number(n, width) => |IntText(n)| <= width
  }

  function Printed(f: Field): (cell: string)
    requires Fits(f)
    ensures |cell| == f.width
  {
    match f
    case Text(s, width) => CText(s) + Blanks(width - |CText(s)|)
    case Number(n, width) => Blanks(width - |IntText(n)|) + IntText(n)
  }

  /** A cell read as a field of that kind. */
  function Parsed(like: Field, cell: string): Option<Field> {
    match like
    case Text(_, width) => Some(Text(TrimRight(cell), width))
    case Number(_, width) =>
      var n := Strtol(CText(TrimRight(cell)));
      if n.None? then None else Some(Number(n.value, width))
  }

  /** The fields that survive: text without NUL and without white space at its end, longs. */
  predicate Survives(f: Field) {
    match f
    case Text(s, _) => NUL !in s && (s != "" ==> !IsSpace(s[|s| - 1]))
    case Number(n, _) => IsInt64(n)
  }

  lemma {:induction false} TrimBlanks(s: string, n: nat)
    ensures TrimRight(s + Blanks(n)) == TrimRight(s)
  {
    var t := s + Blanks(n);
    if n == 0 {
      assert t == s;
    } else {
      TrimBlanks(s, n - 1);
      assert t[|t| - 1] == Blanks(n)[n - 1];
      assert t[..|t| - 1] == s + Blanks(n - 1);
    }
  }

  lemma {:induction false} CTextOfClean(s: string)
    ensures CText(s) == s <==> NUL !in s
  {
    if s != "" {
      CTextOfClean(s[1..]);
      assert s == [s[0]] + s[1..];
    }
  }

  lemma {:induction false} TrimShortens(s: string)
    ensures TrimRight(s) <= s
    ensures TrimRight(s) == s <==> (s != "" ==> !IsSpace(s[|s| - 1]))
  {
    if s != "" && IsSpace(s[|s| - 1]) {
      TrimShortens(s[..|s| - 1]);
    }
  }

  lemma {:induction false} SkipBlanks(n: nat, t: string)
    ensures SkipSpace(Blanks(n) + t) == SkipSpace(t)
  {
    if n == 0 {
      assert Blanks(n) + t == t;
    } else {
      assert (Blanks(n) + t)[1..] == Blanks(n - 1) + t;
      SkipBlanks(n - 1, t);
    }
  }

  lemma PaddedNumber(n: int, k: nat)
    ensures Strtol(Blanks(k) + IntText(n)) == if IsInt64(n) then Some(n) else None
  {
    var t := IntText(n);
    IntTextValue(n);
    IntTextChars(n);
    SkipBlanks(k, t);
    assert SkipSpace(t) == t;
    assert t[0] == '-' ==> t[1..] == NatText(-n);
  }

  lemma TextRoundTrip(f: Field)
    requires f.Text? && Fits(f)
    ensures Parsed(f, Printed(f)) == Some(f) <==> Survives(f)
  {
    hide CText, TrimRight, Blanks, IntText, IsSpace;
    var text := CText(f.s);
    TrimBlanks(text, f.width - |text|);
    TrimShortens(text);
    CTextOfClean(f.s);
  }

  lemma NumberRoundTrip(f: Field)
    requires f.Number? && Fits(f)
    ensures Parsed(f, Printed(f)) == Some(f) <==> Survives(f)
  {
    hide IntText, Strtol, Blanks, TrimRight, CText, IsInt64;
    var cell, text := Printed(f), IntText(f.n);
    PaddedNumber(f.n, f.width - |text|);
    IntTextChars(f.n);
    TrimShortens(cell);
    assert cell[|cell| - 1] == text[|text| - 1];
    assert NUL !in cell;
    CTextOfClean(cell);
  }

  /** A field that is printed and read back is the same exactly when it is one that survives. */
  lemma FieldRoundTrip(f: Field)
    requires Fits(f)
    ensures Parsed(f, Printed(f)) == Some(f) <==> Survives(f)
  {
    hide *;
    if f.Text? {
      TextRoundTrip(f);
    } else {
      NumberRoundTrip(f);
    }
  }

  // ------------------------------------------------------------------------------------------
  // Which cells are numbers
  // ------------------------------------------------------------------------------------------

  ghost predicate AllSpace(s: string) {
    forall k :: 0 <= k < |s| ==> IsSpace(s[k])
  }

  /** White space, a sign or none, and at least one digit. */
  ghost predicate Numeral(t: string, spaces: string, sign: string, digits: string) {
    t == spaces + (sign + digits) && AllSpace(spaces) && sign in ["", "+", "-"] && digits != "" && AllDigits(digits)
  }

  function NumeralValue(sign: string, digits: string): int {
    if sign == "-" then -(ReadDigits(digits, 0) as int) else ReadDigits(digits, 0)
  }

  lemma {:induction false} SkipAll(spaces: string, t: string)
    requires AllSpace(spaces) && (t != "" ==> !IsSpace(t[0]))
    ensures SkipSpace(spaces + t) == t
  {
    if spaces == "" {
      assert spaces + t == t;
    } else {
      assert (spaces + t)[1..] == spaces[1..] + t;
      SkipAll(spaces[1..], t);
    }
  }

  lemma {:induction false} SkipLeaves(t: string) returns (spaces: string)
    ensures t == spaces + SkipSpace(t) && AllSpace(spaces)
  {
    if t == "" || !IsSpace(t[0]) {
      spaces := "";
      assert "" + t == t;
    } else {
      var rest := SkipLeaves(t[1..]);
      spaces := [t[0]] + rest;
      Assoc([t[0]], rest, SkipSpace(t[1..]));
    }
  }

  lemma {:induction false} OnlyDigits(s: string)
    ensures AfterDigits(s) == "" <==> AllDigits(s)
  {
    if s != "" && IsDigit(s[0]) {
      OnlyDigits(s[1..]);
    }
  }

  /** A numeral is read whole, and its value is that of its sign and digits. */
  lemma NumeralIsRead(t: string, spaces: string, sign: string, digits: string)
    requires Numeral(t, spaces, sign, digits)
    ensures Unread(t) == "" && ExactValue(t) == NumeralValue(sign, digits)
  {
    var u := sign + digits;
    assert u[0] == if sign == "" then digits[0] else sign[0];
    SkipAll(spaces, u);
    OnlyDigits(digits);
    assert sign == "" ==> u == digits;
    assert sign != "" ==> u[1..] == digits;
  }

  /** What is read whole, and is not empty, is a numeral. */
  lemma ReadIsNumeral(t: string) returns (spaces: string, sign: string, digits: string)
    requires t != "" && Unread(t) == ""
    ensures Numeral(t, spaces, sign, digits)
  {
    var u := SkipSpace(t);
    spaces := SkipLeaves(t);
    sign, digits := if Signed(u) then [u[0]] else "", if Signed(u) then u[1..] else u;
    assert u == sign + digits;
    OnlyDigits(digits);
  }

  /** A numeral that a long can hold. */
  ghost predicate IsLong(t: string) {
    exists spaces, sign, digits :: Numeral(t, spaces, sign, digits) && -0x8000_0000_0000_0000 <= NumeralValue(sign, digits) <= 0x7fff_ffff_ffff_ffff
  }

  /** strtol accepts the empty text, which it takes for 0, and the numerals that a long can hold. */
  lemma StrtolIff(t: string)
    ensures Strtol(t).Some? <==> t == "" || IsLong(t)
  {
    hide ExactValue, Unread;
    if t == "" {
      EmptyIsZero();
    } else if Unread(t) == "" {
      var spaces, sign, digits := ReadIsNumeral(t);
      NumeralIsRead(t, spaces, sign, digits);
      forall a, b, d | Numeral(t, a, b, d) ensures ExactValue(t) == NumeralValue(b, d) {
        NumeralIsRead(t, a, b, d);
      }
    } else {
      forall a, b, d ensures !Numeral(t, a, b, d) {
        if Numeral(t, a, b, d) {
          NumeralIsRead(t, a, b, d);
        }
      }
    }
  }

  lemma {:induction false} TrimsToNothing(cell: string)
    ensures TrimRight(cell) == "" <==> AllSpace(cell)
  {
    if cell != "" && IsSpace(cell[|cell| - 1]) {
      var n := |cell| - 1;
      TrimsToNothing(cell[..n]);
      assert AllSpace(cell[..n]) ==> forall k :: 0 <= k < |cell| ==> IsSpace(if k < n then cell[..n][k] else cell[n]);
    }
  }

  /** Trimming stops behind a NUL. */
  lemma {:induction false} TrimKeepsNul(cell: string)
    ensures NUL in TrimRight(cell) <==> NUL in cell
    ensures NUL in cell ==> CText(TrimRight(cell)) == CText(cell)
  {
    if cell != "" && IsSpace(cell[|cell| - 1]) {
      var n := |cell| - 1;
      TrimKeepsNul(cell[..n]);
      assert cell == cell[..n] + [cell[n]];
      if NUL in cell[..n] {
        CTextPrefix(cell[..n], [cell[n]]);
      }
    }
  }

  lemma {:induction false} CTextPrefix(s: string, more: string)
    requires NUL in s
    ensures CText(s + more) == CText(s)
  {
    if s[0] != NUL {
      assert (s + more)[1..] == s[1..] + more;
      CTextPrefix(s[1..], more);
    }
  }

  /**
    ReadLong takes a cell for a number if and only if what counts of it is empty, which is taken for
    0, or is a numeral that a long can hold.  What counts is the cell up to its first NUL, and, when
    it has none, the cell without the white space at its end.
  */
  lemma AcceptedIff(cell: string)
    ensures var text := if NUL in cell then CText(cell) else TrimRight(cell);
      Strtol(CText(TrimRight(cell))).Some? <==> text == "" || IsLong(text)
  {
    hide CText, TrimRight, Strtol, IsLong;
    TrimKeepsNul(cell);
    CTextOfClean(TrimRight(cell));
    StrtolIff(CText(TrimRight(cell)));
  }

  /** A numeral, padded on the right or not. */
  ghost predicate NumberCell(cell: string) {
    NUL !in cell && IsLong(TrimRight(cell))
  }

  /**
    The cells that are no numbers and taken for numbers: those of nothing but white space, those that
    begin with a NUL, and those with a NUL right behind a numeral.
  */
  lemma NonNumbersAccepted(cell: string)
    ensures Strtol(CText(TrimRight(cell))).Some? && !NumberCell(cell) <==>
              AllSpace(cell) || (NUL in cell && (cell[0] == NUL || IsLong(CText(cell))))
  {
    AcceptedIff(cell);
    TrimsToNothing(cell);
    EmptyIsNoNumber();
    assert NUL in cell ==> (CText(cell) == "" <==> cell[0] == NUL);
    assert AllSpace(cell) ==> NUL !in cell by {
      assert !IsSpace(NUL);
    }
    hide *;
  }

  lemma EmptyIsNoNumber()
    ensures !IsLong("")
  {
  }

  /** Whatever stands behind a NUL is not looked at: a numeral with junk behind a NUL is taken for that numeral. */
  lemma JunkBehindNul(t: string, junk: string)
    requires NUL !in t
    ensures Strtol(CText(TrimRight(t + [NUL] + junk))) == Strtol(t)
  {
    var cell := t + [NUL] + junk;
    assert cell[|t|] == NUL;
    TrimKeepsNul(cell);
    CTextPrefix(t + [NUL], junk);
    CTextUpTo(t);
  }

  /** So every long is read from a cell that is no number. */
  lemma NumberBeforeJunk(n: int, junk: string)
    requires IsInt64(n)
    ensures var cell := IntText(n) + [NUL] + junk; Strtol(CText(TrimRight(cell))) == Some(n) && !NumberCell(cell)
  {
    var cell := IntText(n) + [NUL] + junk;
    PaddedNumber(n, 0);
    assert Blanks(0) + IntText(n) == IntText(n);
    IntTextChars(n);
    JunkBehindNul(IntText(n), junk);
    assert cell[|IntText(n)|] == NUL;
  }

  lemma {:induction false} CTextUpTo(t: string)
    requires NUL !in t
    ensures CText(t + [NUL]) == t
  {
    if t != "" {
      assert (t + [NUL])[1..] == t[1..] + [NUL];
      CTextUpTo(t[1..]);
    }
  }

  lemma EmptyIsZero()
    ensures Strtol("") == Some(0)
  {
  }

  /** A cell of blanks is no number, and yet it is read as 0. */
  lemma BlanksAreZero(n: nat)
    ensures Strtol(CText(TrimRight(Blanks(n)))) == Some(0)
  {
    TrimBlanks("", n);
    assert "" + Blanks(n) == Blanks(n);
    EmptyIsZero();
  }

  // ------------------------------------------------------------------------------------------
  // Records
  // ------------------------------------------------------------------------------------------

  predicate AllFit(fs: seq<Field>) {
    forall f :: f in fs ==> Fits(f)
  }

  predicate AllSurvive(fs: seq<Field>) {
    forall f :: f in fs ==> Survives(f)
  }

  function PrintedAll(fs: seq<Field>): string
    requires AllFit(fs)
  {
    if fs == [] then "" else Printed(fs[0]) + PrintedAll(fs[1..])
  }

  /** The fields of those kinds and widths from the position on, and the position behind them. */
  function ReadAll(buffer: string, pos: nat, kinds: seq<Field>): Option<(seq<Field>, nat)>
    decreases |kinds|
  {
    if kinds == [] then Some(([], pos))
    else if pos + kinds[0].width > |buffer| then None
    else
      var f := Parsed(kinds[0], buffer[pos..pos + kinds[0].width]);
      if f.None? then None
      else
        var r := ReadAll(buffer, pos + kinds[0].width, kinds[1..]);
        if r.None? then None else Some(([f.value] + r.value.0, r.value.1))
  }

  /** The text stands in the buffer at that position. */
  predicate Holds(buffer: string, pos: nat, text: string) {
    pos + |text| <= |buffer| && buffer[pos..pos + |text|] == text
  }

  lemma HoldsParts(buffer: string, pos: nat, a: string, b: string)
    requires Holds(buffer, pos, a + b)
    ensures Holds(buffer, pos, a) && Holds(buffer, pos + |a|, b)
  {
    assert buffer[pos..pos + |a|] == (a + b)[..|a|] == a;
    assert buffer[pos + |a|..pos + |a + b|] == (a + b)[|a|..] == b;
  }

  lemma HoldsNext(buffer: string, pos: nat, fs: seq<Field>)
    requires fs != [] && AllFit(fs) && AllSurvive(fs) && Holds(buffer, pos, PrintedAll(fs))
    ensures AllFit(fs[1..]) && AllSurvive(fs[1..])
    ensures pos + fs[0].width <= |buffer|
    ensures Parsed(fs[0], buffer[pos..pos + fs[0].width]) == Some(fs[0])
    ensures Holds(buffer, pos + fs[0].width, PrintedAll(fs[1..]))
    ensures |PrintedAll(fs)| == fs[0].width + |PrintedAll(fs[1..])|
  {
    hide Parsed, Printed, Fits, Survives;
    HoldsParts(buffer, pos, Printed(fs[0]), PrintedAll(fs[1..]));
    FieldRoundTrip(fs[0]);
  }

  lemma ReadNext(buffer: string, pos: nat, fs: seq<Field>, end: nat)
    requires fs != [] && pos + fs[0].width <= |buffer|
    requires Parsed(fs[0], buffer[pos..pos + fs[0].width]) == Some(fs[0])
    requires ReadAll(buffer, pos + fs[0].width, fs[1..]) == Some((fs[1..], end))
    ensures ReadAll(buffer, pos, fs) == Some((fs, end))
  {
    hide Parsed;
    assert [fs[0]] + fs[1..] == fs;
  }

  lemma ReadNone(buffer: string, pos: nat)
    ensures ReadAll(buffer, pos, []) == Some(([], pos)) && AllFit([]) && PrintedAll([]) == ""
  {
  }

  /** Wherever a record stands in a buffer, it is read back from there, and nothing of what follows it. */
  lemma {:induction false} RecordRoundTrip(buffer: string, pos: nat, fs: seq<Field>)
    requires AllFit(fs) && AllSurvive(fs) && Holds(buffer, pos, PrintedAll(fs))
    ensures ReadAll(buffer, pos, fs) == Some((fs, pos + |PrintedAll(fs)|))
    decreases |fs|
  {
    hide *;
    if fs == [] {
      ReadNone(buffer, pos);
    } else {
      HoldsNext(buffer, pos, fs);
      RecordRoundTrip(buffer, pos + fs[0].width, fs[1..]);
      ReadNext(buffer, pos, fs, pos + |PrintedAll(fs)|);
    }
  }

  // ------------------------------------------------------------------------------------------
  // The packet
  // ------------------------------------------------------------------------------------------

  class PacketBase {
    var strBuffer: string
    var bufferPos: int

    constructor (strBuffer: string)
      ensures Valid() && this.strBuffer == strBuffer && bufferPos == 0
    {
      this.strBuffer, bufferPos := strBuffer, 0;
    }

    ghost predicate Valid()
      reads this
    {
      0 <= bufferPos <= |strBuffer|
    }

    method ReadChar() returns (c: Option<char>)
      requires Valid()
      modifies this`bufferPos
      ensures Valid()
      ensures if old(bufferPos) < |strBuffer| then c == Some(strBuffer[old(bufferPos)]) && bufferPos == old(bufferPos) + 1
              else c == None && bufferPos == old(bufferPos)
    {
      if bufferPos >= |strBuffer| {
        return None;
      }
      bufferPos := bufferPos + 1;
      return Some(strBuffer[bufferPos - 1]);
    }

    method ReadString(length: nat, trim: bool) returns (str: Option<string>)
      requires Valid()
      modifies this`bufferPos
      ensures Valid()
      ensures if old(bufferPos) + length > |strBuffer| then str == None && bufferPos == old(bufferPos)
              else bufferPos == old(bufferPos) + length
                   && var cell := strBuffer[old(bufferPos)..bufferPos];
                   (trim ==> str.Some? && Parsed(Text("", length), cell) == Some(Text(str.value, length)))
                   && (trim ==> str.Some? && Trimmed(cell, str.value))
                   && (!trim ==> str == Some(cell))
    {
      hide TrimRight;
      if bufferPos + length > |strBuffer| {
        return None;
      }
      var cell := strBuffer[bufferPos..bufferPos + length];
      TrimRightIs(cell);
      bufferPos := bufferPos + length;
      return Some(if trim then TrimRight(cell) else cell);
    }

    /** A cell of blanks reads as 0; the position moves also when the cell is no number. */
    method ReadLong(length: nat) returns (num: Option<int>)
      requires Valid()
      modifies this`bufferPos
      ensures Valid()
      ensures if old(bufferPos) + length > |strBuffer| then num == None && bufferPos == old(bufferPos)
              else bufferPos == old(bufferPos) + length
                   && Parsed(Number(0, length), strBuffer[old(bufferPos)..bufferPos])
                      == if num.Some? then Some(Number(num.value, length)) else None
    {
      var str := ReadString(length, true);
      if str.None? {
        return None;
      }
      return Strtol(CText(str.value));
    }

    /**
      What stands before the last character, which is taken for TLF.  On an empty packet the size less
      one wraps around: the answer is true and the position is -1.
    */
    method ReadUntilTLF() returns (str: Option<string>)
      requires Valid()
      modifies this`bufferPos
      ensures Valid() <==> |strBuffer| > 0
      ensures |strBuffer| > 0 && old(bufferPos) < |strBuffer| - 1 ==>
                str == Some(strBuffer[old(bufferPos)..|strBuffer| - 1]) && bufferPos == |strBuffer| - 1
      ensures |strBuffer| > 0 && old(bufferPos) >= |strBuffer| - 1 ==> str == None && bufferPos == old(bufferPos)
      ensures |strBuffer| == 0 ==> str == Some("") && bufferPos == -1
    {
      if |strBuffer| == 0 {
        bufferPos := -1;
        return Some("");
      }
      if bufferPos >= |strBuffer| - 1 {
        return None;
      }
      str := Some(strBuffer[bufferPos..|strBuffer| - 1]);
      bufferPos := |strBuffer| - 1;
    }

    method WriteChar(c: char)
      modifies this
      ensures Valid() && strBuffer == old(strBuffer) + [c] && bufferPos == |strBuffer|
    {
      strBuffer := strBuffer + [c];
      bufferPos := |strBuffer|;
    }

    /** A field is written whole, or not at all when it does not fit. */
    method WriteString(s: string, length: nat) returns (ok: bool)
      requires Valid()
      modifies this
      ensures Valid() && ok == Fits(Text(s, length)) == (|CText(s)| <= length)
      ensures ok ==> strBuffer == old(strBuffer) + Printed(Text(s, length)) && bufferPos == |strBuffer|
      ensures ok ==> strBuffer == old(strBuffer) + (CText(s) + Blanks(length - |CText(s)|))
      ensures !ok ==> strBuffer == old(strBuffer) && bufferPos == old(bufferPos)
    {
      var text := CText(s);
      if |text| > length {
        return false;
      }
      strBuffer := strBuffer + (text + Blanks(length - |text|));
      bufferPos := |strBuffer|;
      return true;
    }

    method WriteLong(n: int, length: nat) returns (ok: bool)
      requires Valid() && IsInt64(n)
      modifies this
      ensures Valid() && ok == Fits(Number(n, length)) == (|IntText(n)| <= length)
      ensures ok ==> strBuffer == old(strBuffer) + Printed(Number(n, length)) && bufferPos == |strBuffer|
      ensures ok ==> strBuffer == old(strBuffer) + (Blanks(length - |IntText(n)|) + IntText(n))
      ensures !ok ==> strBuffer == old(strBuffer) && bufferPos == old(bufferPos)
    {
      var text := IntText(n);
      var printed := Blanks(if length > |text| then length - |text| else 0) + text;
      if |printed| > length {
        return false;
      }
      strBuffer := strBuffer + printed;
      bufferPos := |strBuffer|;
      return true;
    }

    method ResetReadPosition(position: int) returns (ok: bool)
      requires Valid()
      modifies this`bufferPos
      ensures Valid() && ok == (0 <= position <= |strBuffer|)
      ensures bufferPos == if ok then position else old(bufferPos)
    {
      if position < 0 || position > |strBuffer| {
        return false;
      }
      bufferPos := position;
      return true;
    }
  }

  // ------------------------------------------------------------------------------------------
  // The login of a client
  // ------------------------------------------------------------------------------------------

  const LOGIN: char := 'L'

  /** The type, the name, the password, whether market data is unsubscribed, and a reserved number. */
  function LoginFields(username: string, password: string, unsubscribe: bool): seq<Field> {
    [Text([LOGIN], 1), Text(username, 40), Text(password, 40), Text([if unsubscribe then 'T' else 'F'], 1), Number(0, 9)]
  }

  lemma CharField(c: char)
    requires c != NUL && !IsSpace(c)
    ensures Fits(Text([c], 1)) && Survives(Text([c], 1)) && Printed(Text([c], 1)) == [c]
  {
    CTextOfClean([c]);
  }

  lemma ReservedField()
    ensures IsInt64(0) && Fits(Number(0, 9)) && Survives(Number(0, 9))
  {
  }

  lemma PrintedFive(a: Field, b: Field, c: Field, d: Field, e: Field)
    requires Fits(a) && Fits(b) && Fits(c) && Fits(d) && Fits(e)
    ensures AllFit([a, b, c, d, e])
    ensures PrintedAll([a, b, c, d, e]) == Printed(a) + Printed(b) + Printed(c) + Printed(d) + Printed(e)
  {
    hide Fits, Printed;
    var one, two, three, four := [e], [d, e], [c, d, e], [b, c, d, e];
    assert [a, b, c, d, e][1..] == four && four[1..] == three && three[1..] == two && two[1..] == one && one[1..] == [];
    assert PrintedAll([]) == "";
    assert PrintedAll(one) == Printed(e);
    assert PrintedAll(two) == Printed(d) + Printed(e);
    assert PrintedAll(three) == Printed(c) + PrintedAll(two);
    assert PrintedAll(four) == Printed(b) + PrintedAll(three);
  }

  /**
    Save of the login: the record is appended, and is read back from there when the name and the
    password survive; what does not fit ends the record behind the fields before it.
  */
  method SaveLogin(packet: PacketBase, username: string, password: string, unsubscribe: bool) returns (ok: bool)
    requires packet.Valid()
    modifies packet
    ensures packet.Valid()
    ensures ok <==> Fits(Text(username, 40)) && Fits(Text(password, 40))
    ensures ok ==>
              && AllFit(LoginFields(username, password, unsubscribe))
              && packet.strBuffer == old(packet.strBuffer) + PrintedAll(LoginFields(username, password, unsubscribe))
    ensures ok && Survives(Text(username, 40)) && Survives(Text(password, 40)) ==>
              ReadAll(packet.strBuffer, |old(packet.strBuffer)|, LoginFields(username, password, unsubscribe))
              == Some((LoginFields(username, password, unsubscribe), |packet.strBuffer|))
    ensures !ok ==> packet.strBuffer == old(packet.strBuffer) + [LOGIN]
                      + if Fits(Text(username, 40)) then Printed(Text(username, 40)) else ""
  {
    hide *;
    ReservedField();
    packet.WriteChar(LOGIN);
    ok := packet.WriteString(username, 40);
    if !ok {
      return;
    }
    ok := packet.WriteString(password, 40);
    if !ok {
      return;
    }
    packet.WriteChar(if unsubscribe then 'T' else 'F');
    ok := packet.WriteLong(0, 9);
    LoginWritten(old(packet.strBuffer), packet.strBuffer, username, password, unsubscribe);
  }

  lemma LoginParts(username: string, password: string, unsubscribe: bool)
    requires Fits(Text(username, 40)) && Fits(Text(password, 40))
    ensures Fits(Number(0, 9)) && AllFit(LoginFields(username, password, unsubscribe))
    ensures PrintedAll(LoginFields(username, password, unsubscribe))
         == [LOGIN] + Printed(Text(username, 40)) + Printed(Text(password, 40)) + [if unsubscribe then 'T' else 'F']
            + Printed(Number(0, 9))
    ensures Survives(Text(username, 40)) && Survives(Text(password, 40)) ==>
              AllSurvive(LoginFields(username, password, unsubscribe))
  {
    var flag := if unsubscribe then 'T' else 'F';
    CharField(LOGIN);
    CharField(flag);
    ReservedField();
    hide Fits, Survives, Printed, PrintedAll, AllFit, Decimal.IsInt64;
    PrintedFive(Text([LOGIN], 1), Text(username, 40), Text(password, 40), Text([flag], 1), Number(0, 9));
  }

  lemma TextCell(s: string, width: nat)
    ensures Fits(Text(s, width)) <==> |CText(s)| <= width
    ensures |CText(s)| <= width ==> Printed(Text(s, width)) == CText(s) + Blanks(width - |CText(s)|)
  {
  }

  lemma FixedCells()
    ensures [LOGIN] == "L" && Fits(Number(0, 9)) && Printed(Number(0, 9)) == "        0"
  {
    assert IntText(0) == "0";
  }

  /** The bytes of the record: the type, both names padded on the right to 40, the flag, and a 0 padded on the left to 9. */
  lemma LoginText(username: string, password: string, unsubscribe: bool)
    requires |CText(username)| <= 40 && |CText(password)| <= 40
    ensures AllFit(LoginFields(username, password, unsubscribe))
    ensures PrintedAll(LoginFields(username, password, unsubscribe))
         == "L" + (CText(username) + Blanks(40 - |CText(username)|)) + (CText(password) + Blanks(40 - |CText(password)|))
            + [if unsubscribe then 'T' else 'F'] + "        0"
  {
    hide *;
    TextCell(username, 40);
    TextCell(password, 40);
    FixedCells();
    LoginParts(username, password, unsubscribe);
  }

  lemma LoginWritten(before: string, after: string, username: string, password: string, unsubscribe: bool)
    requires Fits(Text(username, 40)) && Fits(Text(password, 40)) && Fits(Number(0, 9))
    requires after == before + [LOGIN] + Printed(Text(username, 40)) + Printed(Text(password, 40))
                      + [if unsubscribe then 'T' else 'F'] + Printed(Number(0, 9))
    ensures AllFit(LoginFields(username, password, unsubscribe))
    ensures after == before + PrintedAll(LoginFields(username, password, unsubscribe))
    ensures Survives(Text(username, 40)) && Survives(Text(password, 40)) ==>
              ReadAll(after, |before|, LoginFields(username, password, unsubscribe))
              == Some((LoginFields(username, password, unsubscribe), |after|))
  {
    hide *;
    LoginParts(username, password, unsubscribe);
    var name, word, reserved := Printed(Text(username, 40)), Printed(Text(password, 40)), Printed(Number(0, 9));
    AssocFive(before, [LOGIN], name, word, [if unsubscribe then 'T' else 'F'], reserved);
    Appended(before, LoginFields(username, password, unsubscribe));
  }

  /** A record at the end of a packet. */
  lemma Appended(before: string, fs: seq<Field>)
    requires AllFit(fs)
    ensures AllSurvive(fs) ==>
              ReadAll(before + PrintedAll(fs), |before|, fs) == Some((fs, |before + PrintedAll(fs)|))
  {
    hide *;
    if AllSurvive(fs) {
      HoldsBehind(before, PrintedAll(fs));
      RecordRoundTrip(before + PrintedAll(fs), |before|, fs);
    }
  }

  lemma AssocFive(s: string, a: string, b: string, c: string, d: string, e: string)
    ensures s + a + b + c + d + e == s + (a + b + c + d + e)
  {
    Assoc(s, a, b);
    Assoc(s, a + b, c);
    Assoc(s, a + b + c, d);
    Assoc(s, a + b + c + d, e);
  }

  lemma HoldsBehind(before: string, text: string)
    ensures Holds(before + text, |before|, text)
  {
  }
}
