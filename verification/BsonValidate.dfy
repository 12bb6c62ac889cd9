/** The parts of `validateBSON`: frames, the reading position, and one element at a time. */
module BsonValidate {
  import opened Wrappers
  import opened BsonGrammar
  import opened BsonParse

  const UINT64 := 0x1_0000_0000_0000_0000

  datatype Status = OK | InvalidBSON

  datatype ValidationState = BeginObj | WithinObj | EndObj | BeginCodeWScope | EndCodeWScope | Done

  // ---------------------------------------------------------------- the frame word

  const BIT_31 := 0x8000_0000

  type word = w: int | 0 <= w < 2 * BIT_31

  /** w & ~(1 << 31) and w & (1 << 31). */
  function Low(w: word): word { w % BIT_31 }
  function High(w: word): word { w - w % BIT_31 }

  /** `ValidationObjectFrame`: the start position in bits 0..30 and the CodeWScope flag in bit 31 of
      one word. The `|` of two words with no common bit is their sum. */
  datatype Frame = Frame(bits: word, expectedSize: int) {
    function StartPosition(): int {
      Low(bits)
    }

    predicate IsCodeWithScope() {
      High(bits) != 0
    }

    function SetStartPosition(pos: word): Frame {
      this.(bits := High(bits) + Low(pos))
    }

    function SetIsCodeWithScope(flag: bool): Frame {
      this.(bits := if flag then Low(bits) + BIT_31 else Low(bits))
    }
  }

  lemma Halves(w: word, high: word, low: word)
    requires high in {0, BIT_31} && low < BIT_31
    ensures Low(w) < BIT_31 && High(w) in {0, BIT_31}
    ensures high + low < 2 * BIT_31 && Low(high + low) == low && High(high + low) == high
  {
  }

  /** Whatever the word held before, and in whichever order they are set, the flag and a start
      position below 2^31 do not disturb each other. */
  lemma FramePacking(f: Frame, pos: nat, flag: bool)
    requires pos <= MAX_INT
    ensures var g := f.SetStartPosition(pos).SetIsCodeWithScope(flag);
            && g == f.SetIsCodeWithScope(flag).SetStartPosition(pos)
            && g.StartPosition() == pos && g.IsCodeWithScope() == flag && g.expectedSize == f.expectedSize
  {
    hide Low, High;
    Halves(f.bits, 0, pos);
    Halves(f.bits, High(f.bits), pos);
    Halves(f.bits, if flag then BIT_31 else 0, Low(f.bits));
    Halves(f.bits, if flag then BIT_31 else 0, pos);
    Halves(f.bits, 0, Low(f.bits));
  }

  function NewFrame(pos: nat, flag: bool): (f: Frame)
    requires pos <= MAX_INT
    ensures f.StartPosition() == pos && f.IsCodeWithScope() == flag
  {
    Frame(0, 0).SetStartPosition(pos).SetIsCodeWithScope(flag)
  }

  // ---------------------------------------------------------------- the buffer

  /** Adding a converted int to an unsigned 64-bit position: a negative one moves it backwards. */
  function AddUint64(position: nat, distance: int): nat {
    (position + distance) % UINT64
  }

  /** A 32-bit int after an addition that left its range. */
  function WrapInt(n: int): int {
    if n > MAX_INT then n - 2 * BIT_31 else if n < -MAX_INT - 1 then n + 2 * BIT_31 else n
  }

  /** A skip whose result is looked at: the new position has to be inside the buffer. */
  function SkipTo(b: seq<byte>, p: nat, distance: int): (r: Option<nat>)
    ensures r.Some? ==> r.value < |b|
    ensures p <= |b| <= MAX_INT && -1 <= distance <= MAX_INT && p + distance >= 0 ==>
      r == if p + distance < |b| then Some(p + distance) else None
  {
    var q := AddUint64(p, distance);
    if q < |b| then Some(q) else None
  }

  /** Where a string read from p ends. */
  function TextEnd(b: seq<byte>, p: nat): (r: Option<nat>)
    ensures r.Some? ==> r.value <= |b|
  {
    if p + 4 > |b| then None
    else
      var q := SkipTo(b, p + 4, WrapInt(Int32At(b, p) - 1));
      if q.None? || b[q.value] != 0 then None else Some(q.value + 1)
  }

  /** `Buffer`: the bytes, their number (maxLength), and how far they were read. */
  class Buffer {
    const data: seq<byte>
    var position: nat

    constructor (bytes: seq<byte>)
      ensures data == bytes && position == 0
    {
      data := bytes;
      position := 0;
    }

    ghost predicate Valid()
      reads this
    {
      |data| <= MAX_INT && position <= |data| + OID_BYTES
    }

    method ReadByte() returns (ok: bool, out: byte)
      requires Valid()
      modifies this
      ensures Valid() && ok == (old(position) < |data|)
      ensures ok ==> position == old(position) + 1 && out == data[old(position)]
      ensures !ok ==> position == old(position)
    {
      out := 0;
      ok := position + 1 <= |data|;
      if ok {
        out := data[position];
        position := position + 1;
      }
    }

    method ReadInt() returns (ok: bool, out: int)
      requires Valid()
      modifies this
      ensures Valid() && ok == (old(position) + 4 <= |data|)
      ensures ok ==> position == old(position) + 4 && out == Int32At(data, old(position))
      ensures !ok ==> position == old(position)
    {
      out := 0;
      ok := position + 4 <= |data|;
      if ok {
        out := Int32At(data, position);
        position := position + 4;
      }
    }

    method Skip(sz: int) returns (ok: bool)
      modifies this
      ensures position == AddUint64(old(position), sz) && ok == (position < |data|)
    {
      position := AddUint64(position, sz);
      ok := position < |data|;
    }

    method ReadCString() returns (status: Status)
      requires Valid() && position <= |data|
      modifies this
      ensures Valid() && position <= |data|
      ensures var n := FindNul(data, old(position));
              if n.Some? then status == OK && position == n.value + 1 else status == InvalidBSON
    {
      var i := position;
      while i < |data| && data[i] != 0
        invariant position <= i <= |data|
        invariant FindNul(data, position) == FindNul(data, i)
      {
        i := i + 1;
      }
      if i == |data| {
        return InvalidBSON;
      }
      position := i + 1;
      return OK;
    }

    method ReadUTF8String() returns (status: Status)
      requires Valid() && position <= |data|
      modifies this
      ensures status == OK ==> Valid() && TextEnd(data, old(position)) == Some(position)
      ensures status != OK ==> TextEnd(data, old(position)) == None
    {
      var ok, sz := ReadInt();
      if !ok {
        return InvalidBSON;
      }
      ok := Skip(WrapInt(sz - 1));
      if !ok {
        return InvalidBSON;
      }
      var c;
      ok, c := ReadByte();
      if !ok || c != 0 {
        return InvalidBSON;
      }
      return OK;
    }
  }

  // ---------------------------------------------------------------- one element

  /** Where a value without a document inside ends. */
  function PlainEnd(b: seq<byte>, kind: byte, p: nat): (r: Option<nat>)
    requires p <= |b| <= MAX_INT
    ensures r.Some? ==> r.value <= |b| + OID_BYTES
  {
    if IsFixed(kind) then if FixedWidth(kind) == 0 then Some(p) else SkipTo(b, p, FixedWidth(kind))
    else if kind == DB_REF then
      var q := TextEnd(b, p);
      if q.None? then None else Some(q.value + OID_BYTES)
    else if kind == REGEX then
      var n := FindNul(b, p);
      if n.None? then None
      else
        var m := FindNul(b, n.value + 1);
        if m.None? then None else Some(m.value + 1)
    else if IsText(kind) then TextEnd(b, p)
    else if kind == BIN_DATA then
      if p + 4 > |b| then None else SkipTo(b, p + 4, WrapInt(1 + Int32At(b, p)))
    else None
  }

  /** What the machine does after one element: the next state and the next position. None is the
      error. */
  function AfterElement(b: seq<byte>, p: nat): (r: Option<(ValidationState, nat)>)
    requires |b| <= MAX_INT
    ensures r.Some? ==> r.value.1 <= |b| + OID_BYTES && r.value.0 in {WithinObj, EndObj, BeginObj, BeginCodeWScope}
    ensures r.Some? && r.value.0 in {BeginObj, BeginCodeWScope} ==> r.value.1 <= |b|
  {
    if p >= |b| then None
    else if b[p] == EOO then Some((EndObj, p + 1))
    else
      var n := FindNul(b, p + 1);
      if n.None? then None
      else if IsNested(b[p]) then Some((BeginObj, n.value + 1))
      else if b[p] == CODE_W_SCOPE then Some((BeginCodeWScope, n.value + 1))
      else
        var q := PlainEnd(b, b[p], n.value + 1);
        if q.None? then None else Some((WithinObj, q.value))
  }

  /** `validateElementInfo`: reads a type byte and a name, then the value, unless that holds a
      document of its own. */
  method ValidateElementInfo(buffer: Buffer) returns (status: Status, next: ValidationState)
    requires buffer.Valid()
    modifies buffer
    ensures status == OK ==> buffer.Valid()
    ensures status == OK ==> AfterElement(buffer.data, old(buffer.position)) == Some((next, buffer.position))
    ensures status != OK ==> AfterElement(buffer.data, old(buffer.position)) == None
  {
    hide FindNul, PlainEnd, Int32At;
    next := WithinObj;
    var ok, kind := buffer.ReadByte();
    if !ok {
      return InvalidBSON, next;
    }
    if kind == EOO {
      return OK, EndObj;
    }
    status := buffer.ReadCString();
    if status != OK {
      return;
    }
    if kind == CODE_W_SCOPE {
      return OK, BeginCodeWScope;
    } else if kind in {OBJECT, ARRAY} {
      return OK, BeginObj;
    }
    status := ReadPlainValue(buffer, kind);
  }

  /** The cases of its switch that read a value without a document inside. */
  method ReadPlainValue(buffer: Buffer, kind: byte) returns (status: Status)
    requires buffer.Valid() && buffer.position <= |buffer.data|
    requires !IsNested(kind) && kind != CODE_W_SCOPE
    modifies buffer
    ensures status == OK ==> buffer.Valid() && PlainEnd(buffer.data, kind, old(buffer.position)) == Some(buffer.position)
    ensures status != OK ==> PlainEnd(buffer.data, kind, old(buffer.position)) == None
  {
    hide FindNul, Int32At, TextEnd;
    var ok;
    if kind in {MIN_KEY, MAX_KEY, NULL, UNDEFINED} {
      return OK;
    } else if kind == OID {
      ok := buffer.Skip(OID_BYTES);
      return if ok then OK else InvalidBSON;
    } else if kind == NUMBER_INT {
      ok := buffer.Skip(4);
      return if ok then OK else InvalidBSON;
    } else if kind == BOOL {
      ok := buffer.Skip(1);
      return if ok then OK else InvalidBSON;
    } else if kind in {NUMBER_DOUBLE, NUMBER_LONG, TIMESTAMP, DATE} {
      ok := buffer.Skip(8);
      return if ok then OK else InvalidBSON;
    } else if kind == DB_REF {
      status := buffer.ReadUTF8String();
      if status == OK {
        // The result of this skip is not looked at.
        ok := buffer.Skip(OID_BYTES);
      }
    } else if kind == REGEX {
      status := buffer.ReadCString();
      if status == OK {
        status := buffer.ReadCString();
      }
    } else if kind in {CODE, SYMBOL, STRING} {
      status := buffer.ReadUTF8String();
    } else if kind == BIN_DATA {
      var sz;
      ok, sz := buffer.ReadInt();
      if !ok {
        return InvalidBSON;
      }
      ok := buffer.Skip(WrapInt(1 + sz));
      return if ok then OK else InvalidBSON;
    } else {
      return InvalidBSON;
    }
  }

  // ---------------------------------------------------------------- the element and the grammar

  /** The value at p starts with a length prefix that moves the position backwards. */
  predicate NegativePrefix(b: seq<byte>, kind: byte, p: nat) {
    p + 4 <= |b| &&
    (if kind == BIN_DATA then Int32At(b, p) < -1 else (IsText(kind) || kind == DB_REF) && Int32At(b, p) < 0)
  }

  lemma ZeroPrefix(b: seq<byte>, p: nat)
    requires p + 4 <= |b| && Int32At(b, p) == 0
    ensures b[p + 3] == 0
  {
  }

  /** Without a negative prefix a string ends where the grammar says. */
  lemma TextAgrees(b: seq<byte>, p: nat)
    requires p <= |b| <= MAX_INT
    ensures match ParseText(b, p)
            case Parsed(_, q) => TextEnd(b, p) == Some(q)
            case Malformed => TextEnd(b, p) == None
            case NegativeLength => true
    ensures ParseText(b, p).NegativeLength? <==> p + 4 <= |b| && Int32At(b, p) < 0
  {
    hide Int32At;
    if p + 4 <= |b| && Int32At(b, p) == 0 {
      ZeroPrefix(b, p);
    }
  }

  /** So does every plain value, but for a DBRef that runs out of the buffer: that is not reported,
      and the position is then past the last byte. */
  lemma PlainAgrees(b: seq<byte>, kind: byte, p: nat)
    requires p <= |b| <= MAX_INT && !IsNested(kind) && kind != CODE_W_SCOPE
    ensures match ParseValue(b, kind, p)
            case Parsed(_, q) => PlainEnd(b, kind, p) == Some(q)
            case Malformed => PlainEnd(b, kind, p).Some? ==> PlainEnd(b, kind, p).value >= |b|
            case NegativeLength => true
    ensures ParseValue(b, kind, p).NegativeLength? <==> NegativePrefix(b, kind, p)
  {
    TextAgrees(b, p);
    hide ParseText, TextEnd, Int32At, FindNul;
  }
}
