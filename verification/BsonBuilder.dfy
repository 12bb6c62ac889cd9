/** `BSONObjBuilder`: appends to a growable buffer that nested builders share, and back-patches each
    object's size when it is done. */
module BsonBuilder {
  import opened Wrappers
  import opened BsonGrammar
  import opened BsonParse
  import BsonElement
  import BsonMachine
  import BsonValidate

  /** `BufBuilder`. */
  class BufBuilder {
    var data: seq<byte>

    constructor ()
      ensures data == []
    {
      data := [];
    }

    method AppendByte(x: byte)
      modifies this
      ensures data == old(data) + [x]
    {
      data := data + [x];
    }

    method AppendInt(n: int)
      modifies this
      ensures data == old(data) + Int32(n)
    {
      data := data + Int32(n);
    }

    method AppendBuf(src: seq<byte>)
      modifies this
      ensures data == old(data) + src
    {
      data := data + src;
    }

    method AppendStr(s: seq<byte>)
      modifies this
      ensures data == old(data) + s + [0]
    {
      data := data + s + [0];
    }

    /** Leaves room whose contents are whatever they are. */
    method Skip(n: nat)
      modifies this
      ensures |data| == |old(data)| + n && data[..|old(data)|] == old(data)
    {
      data := data + seq(n, _ => 0);
    }

    method SetLen(n: nat)
      requires n <= |data|
      modifies this
      ensures data == old(data)[..n]
    {
      data := data[..n];
    }

    method Patch(at: nat, n: int)
      requires at + 4 <= |data|
      modifies this
      ensures data == old(data)[..at] + Int32(n) + old(data)[at + 4..]
    {
      data := data[..at] + Int32(n) + data[at + 4..];
    }
  }

  class BSONObjBuilder {
    const b: BufBuilder
    const offset: nat
    var doneCalled: bool

    /** The builder is open and its buffer holds these elements after the room for the size. */
    ghost predicate Open(es: Elements)
      reads this, b
    {
      !doneCalled && offset + 4 <= |b.data| && b.data[offset + 4..] == EncElements(es)
    }

    /** A builder with a buffer of its own, which starts with a reference count. */
    constructor ()
      ensures fresh(b) && Open(Nil) && offset == 4
    {
      var buf := new BufBuilder();
      b := buf;
      offset := 4;
      doneCalled := false;
      new;
      b.AppendInt(0);
      b.Skip(4);
    }

    /** A builder that goes on in the buffer of another. */
    constructor Within(base: BufBuilder)
      modifies base
      ensures b == base && Open(Nil) && offset == |old(base.data)|
      ensures base.data[..offset] == old(base.data)
    {
      b := base;
      offset := |base.data|;
      doneCalled := false;
      new;
      b.Skip(4);
    }

    method Header(kind: byte, name: seq<byte>)
      modifies b
      ensures b.data == old(b.data) + ([kind] + name + [0])
    {
      b.AppendByte(kind);
      b.AppendStr(name);
    }

    /** The fixed-width appends: bool, int, long long, double, OID, date, timestamp, null, undefined,
        MinKey and MaxKey. */
    method AppendFixed(kind: byte, name: seq<byte>, value: seq<byte>)
      modifies b
      ensures b.data == old(b.data) + EncElement(name, Value.Fixed(kind, value))
    {
      Header(kind, name);
      b.AppendBuf(value);
    }

    /** Strings, code and symbols. */
    method AppendText(kind: byte, name: seq<byte>, chars: seq<byte>)
      modifies b
      ensures b.data == old(b.data) + EncElement(name, Str(kind, Terminated(chars)))
    {
      Header(kind, name);
      b.AppendInt(|chars| + 1);
      b.AppendStr(chars);
    }

    method AppendDBRef(name: seq<byte>, ns: seq<byte>, oid: seq<byte>)
      modifies b
      ensures b.data == old(b.data) + EncElement(name, Ref(Terminated(ns), oid))
    {
      Header(DB_REF, name);
      b.AppendInt(|ns| + 1);
      b.AppendStr(ns);
      b.AppendBuf(oid);
    }

    method AppendRegex(name: seq<byte>, pattern: seq<byte>, options: seq<byte>)
      modifies b
      ensures b.data == old(b.data) + EncElement(name, Value.Regex(pattern, options))
    {
      Header(REGEX, name);
      b.AppendStr(pattern);
      b.AppendStr(options);
    }

    method AppendBinData(name: seq<byte>, subtype: byte, bytes: seq<byte>)
      modifies b
      ensures b.data == old(b.data) + EncElement(name, Binary([subtype] + bytes))
    {
      Header(BIN_DATA, name);
      b.AppendInt(|bytes|);
      b.AppendByte(subtype);
      b.AppendBuf(bytes);
    }

    method AppendCodeWScope(name: seq<byte>, code: seq<byte>, scope: seq<byte>, ghost es: Elements)
      requires scope == EncDoc(es)
      modifies b
      ensures b.data == old(b.data) + EncElement(name, Scoped(Terminated(code), es))
    {
      hide Int32;
      ScopedBytes(name, code, es);
      Header(CODE_W_SCOPE, name);
      b.AppendInt(4 + 4 + |code| + 1 + |scope|);
      b.AppendInt(|code| + 1);
      b.AppendStr(code);
      b.AppendBuf(scope);
    }

    /** `append(name, BSONObj)` and `appendArray`. */
    method AppendObject(kind: byte, name: seq<byte>, obj: seq<byte>, ghost es: Elements)
      requires obj == EncDoc(es)
      modifies b
      ensures b.data == old(b.data) + EncElement(name, Nested(kind, es))
    {
      hide EncDoc, Int32;
      Header(kind, name);
      b.AppendBuf(obj);
    }

    /** `appendElements`: the bytes of a finished object, less its size and its EOO. */
    method AppendElements(obj: seq<byte>, ghost es: Elements)
      requires obj == EncDoc(es)
      modifies b
      ensures b.data == old(b.data) + EncElements(es)
    {
      BsonElement.DocLength(es);
      if |obj| > 5 {
        b.AppendBuf(obj[4..|obj| - 1]);
      }
    }

    /** `subobjStart` and `subarrayStart`: the header of a member whose object a nested builder on
        the returned buffer is to write. */
    method SubStart(kind: byte, name: seq<byte>) returns (base: BufBuilder)
      modifies b
      ensures base == b && b.data == old(b.data) + ([kind] + name + [0])
    {
      Header(kind, name);
      base := b;
    }

    /** `_done`: ends the object with EOO and writes its size; a second call changes nothing. */
    method Done() returns (obj: seq<byte>)
      requires offset + 4 <= |b.data|
      modifies this`doneCalled, b
      ensures doneCalled && offset + 4 <= |b.data| && obj == b.data[offset..]
      ensures old(doneCalled) ==> b.data == old(b.data)
      ensures !old(doneCalled) ==>
        b.data == old(b.data)[..offset] + Int32(|old(b.data)| + 1 - offset) + old(b.data)[offset + 4..] + [EOO]
    {
      if doneCalled {
        return b.data[offset..];
      }
      doneCalled := true;
      b.AppendByte(EOO);
      b.Patch(offset, |b.data| - offset);
      obj := b.data[offset..];
    }

    /** `asTempObj`: a look at the object so far; the next append overwrites the EOO. */
    method AsTempObj(ghost es: Elements) returns (obj: seq<byte>)
      requires Open(es)
      modifies this`doneCalled, b
      ensures Open(es) && obj == EncDoc(es)
      ensures |b.data| == |old(b.data)| && b.data[..offset] == old(b.data)[..offset]
    {
      obj := Done();
      b.SetLen(|b.data| - 1);
      doneCalled := false;
    }
  }

  /** The layout of a CodeWScope element, piece by piece. */
  lemma ScopedBytes(name: seq<byte>, code: seq<byte>, es: Elements)
    ensures EncElement(name, Scoped(Terminated(code), es)) ==
            [CODE_W_SCOPE] + name + [0] + Int32(4 + 4 + |code| + 1 + |EncDoc(es)|) + Int32(|code| + 1) + (code + [0]) + EncDoc(es)
  {
  }

  // ---------------------------------------------------------------- sequences of builder calls

  /** A call on an open builder. `Sub` is subobjStart or subarrayStart, the calls on the nested
      builder, and its done(). */
  datatype Call =
    | Fixed(kind: byte, name: seq<byte>, value: seq<byte>)
    | Text(kind: byte, name: seq<byte>, chars: seq<byte>)
    | DBRef(name: seq<byte>, ns: seq<byte>, oid: seq<byte>)
    | Regex(name: seq<byte>, pattern: seq<byte>, options: seq<byte>)
    | BinData(name: seq<byte>, subtype: byte, bytes: seq<byte>)
    | CodeWScope(name: seq<byte>, code: seq<byte>, scope: Elements)
    | Object(kind: byte, name: seq<byte>, doc: Elements)
    | AllOf(doc: Elements)
    | Sub(kind: byte, name: seq<byte>, calls: seq<Call>)
    | AsTempObj

  /** What the builder's interface asks: types that fit, and names and patterns without NULs. */
  predicate Proper(c: Call) {
    match c
    case Fixed(kind, name, value) => IsFixed(kind) && NoNul(name) && |value| == FixedWidth(kind)
    case Text(kind, name, _) => IsText(kind) && NoNul(name)
    case DBRef(name, _, oid) => NoNul(name) && |oid| == OID_BYTES
    case Regex(name, pattern, options) => NoNul(name) && NoNul(pattern) && NoNul(options)
    case BinData(name, _, _) => NoNul(name)
    case CodeWScope(name, _, scope) => NoNul(name) && WellFormedAll(scope)
    case Object(kind, name, doc) => IsNested(kind) && NoNul(name) && WellFormedAll(doc)
    case AllOf(doc) => WellFormedAll(doc)
    case Sub(kind, name, calls) => IsNested(kind) && NoNul(name) && ProperAll(calls)
    case AsTempObj => true
  }

  predicate ProperAll(calls: seq<Call>) {
    forall c | c in calls :: Proper(c)
  }

  function Append(es: Elements, fs: Elements): Elements {
    match es
    case Nil => fs
    case Cons(name, v, rest) => Cons(name, v, Append(rest, fs))
  }

  function One(name: seq<byte>, v: Value): Elements {
    Cons(name, v, Nil)
  }

  /** The elements one call adds. */
  function Added(c: Call): Elements {
    match c
    case Fixed(kind, name, value) => One(name, Value.Fixed(kind, value))
    case Text(kind, name, chars) => One(name, Str(kind, Terminated(chars)))
    case DBRef(name, ns, oid) => One(name, Ref(Terminated(ns), oid))
    case Regex(name, pattern, options) => One(name, Value.Regex(pattern, options))
    case BinData(name, subtype, bytes) => One(name, Binary([subtype] + bytes))
    case CodeWScope(name, code, scope) => One(name, Scoped(Terminated(code), scope))
    case Object(kind, name, doc) => One(name, Nested(kind, doc))
    case AllOf(doc) => doc
    case Sub(kind, name, calls) => One(name, Nested(kind, Built(calls)))
    case AsTempObj => Nil
  }

  /** The document that a sequence of calls builds. */
  function Built(calls: seq<Call>): Elements {
    if calls == [] then Nil
    else Append(Built(calls[..|calls| - 1]), Added(calls[|calls| - 1]))
  }

  lemma {:induction false} EncAppend(es: Elements, fs: Elements)
    ensures EncElements(Append(es, fs)) == EncElements(es) + EncElements(fs)
  {
    match es
    case Nil =>
    case Cons(name, v, rest) =>
      EncAppend(rest, fs);
      Regroup(EncElement(name, v), EncElements(rest), EncElements(fs));
  }

  lemma {:induction false} AppendNil(es: Elements)
    ensures Append(es, Nil) == es
  {
    if es.Cons? {
      AppendNil(es.rest);
    }
  }

  lemma {:induction false} AppendWellFormed(es: Elements, fs: Elements)
    requires WellFormedAll(es) && WellFormedAll(fs)
    ensures WellFormedAll(Append(es, fs))
  {
    if es.Cons? {
      AppendWellFormed(es.rest, fs);
    }
  }

  lemma {:induction false} BuiltWellFormed(calls: seq<Call>)
    requires ProperAll(calls)
    ensures WellFormedAll(Built(calls))
  {
    if calls != [] {
      var last := calls[|calls| - 1];
      assert last in calls && Proper(last);
      BuiltWellFormed(calls[..|calls| - 1]);
      if last.Sub? {
        BuiltWellFormed(last.calls);
      }
      AppendWellFormed(Built(calls[..|calls| - 1]), Added(last));
    }
  }

  lemma EncOne(name: seq<byte>, v: Value)
    ensures EncElements(One(name, v)) == EncElement(name, v)
  {
  }

  /** Performing one call on a builder appends the bytes of the elements it adds, and leaves what
      stands before the builder's object alone. */
  method Perform(builder: BSONObjBuilder, c: Call, ghost es: Elements)
    requires Proper(c) && builder.Open(es)
    modifies builder`doneCalled, builder.b
    ensures builder.Open(Append(es, Added(c)))
    ensures builder.b.data[..builder.offset] == old(builder.b.data[..builder.offset])
    decreases c, 1
  {
    hide EncElement, EncDoc, EncElements, EncValue;
    EncAppend(es, Added(c));
    match c
    case Fixed(kind, name, value) =>
      EncOne(name, Value.Fixed(kind, value));
      builder.AppendFixed(kind, name, value);
    case Text(kind, name, chars) =>
      EncOne(name, Str(kind, Terminated(chars)));
      builder.AppendText(kind, name, chars);
    case DBRef(name, ns, oid) =>
      EncOne(name, Ref(Terminated(ns), oid));
      builder.AppendDBRef(name, ns, oid);
    case Regex(name, pattern, options) =>
      EncOne(name, Value.Regex(pattern, options));
      builder.AppendRegex(name, pattern, options);
    case BinData(name, subtype, bytes) =>
      EncOne(name, Binary([subtype] + bytes));
      builder.AppendBinData(name, subtype, bytes);
    case CodeWScope(name, code, scope) =>
      EncOne(name, Scoped(Terminated(code), scope));
      builder.AppendCodeWScope(name, code, EncDoc(scope), scope);
    case Object(kind, name, doc) =>
      EncOne(name, Nested(kind, doc));
      builder.AppendObject(kind, name, EncDoc(doc), doc);
    case AllOf(doc) =>
      builder.AppendElements(EncDoc(doc), doc);
    case Sub(kind, name, calls) =>
      PerformSub(builder, c, es);
    case AsTempObj =>
      AppendNil(es);
      var temp := builder.AsTempObj(es);
  }

  method PerformSub(builder: BSONObjBuilder, c: Call, ghost es: Elements)
    requires c.Sub? && Proper(c) && builder.Open(es)
    modifies builder.b
    ensures builder.Open(Append(es, Added(c)))
    ensures builder.b.data[..builder.offset] == old(builder.b.data[..builder.offset])
    decreases c, 0
  {
    hide EncElements, Int32, Append;
    ghost var doc := Built(c.calls);
    ghost var prefix := builder.b.data;
    ghost var header := [c.kind] + c.name + [0];
    EncAppend(es, Added(c));
    EncOne(c.name, Nested(c.kind, doc));
    var base := builder.SubStart(c.kind, c.name);
    var nested := new BSONObjBuilder.Within(base);
    PerformAll(nested, c.calls);
    var obj := nested.Done();
    assert base.data == prefix + header + EncDoc(doc) by {
      ghost var body := EncElements(doc) + [EOO];
      assert base.data == (prefix + header) + Int32(|body| + 4) + EncElements(doc) + [EOO];
      Regroup(prefix + header + Int32(|body| + 4), EncElements(doc), [EOO]);
      Regroup(prefix + header, Int32(|body| + 4), body);
    }
    Regroup(prefix, header, EncDoc(doc));
    Tail(prefix, header + EncDoc(doc), builder.offset + 4);
  }

  lemma Tail(x: seq<byte>, y: seq<byte>, n: nat)
    requires n <= |x|
    ensures (x + y)[n..] == x[n..] + y && (x + y)[..n] == x[..n]
  {
  }

  /** Any sequence of calls, nested to any depth, with looks at the unfinished object anywhere. */
  method PerformAll(builder: BSONObjBuilder, calls: seq<Call>)
    requires ProperAll(calls) && builder.Open(Nil)
    modifies builder`doneCalled, builder.b
    ensures builder.Open(Built(calls))
    ensures builder.b.data[..builder.offset] == old(builder.b.data[..builder.offset])
    decreases calls, 1
  {
    assert calls[..0] == [];
    for i := 0 to |calls|
      invariant builder.Open(Built(calls[..i]))
      invariant builder.b.data[..builder.offset] == old(builder.b.data[..builder.offset])
    {
      assert calls[..i + 1][..i] == calls[..i];
      Perform(builder, calls[i], Built(calls[..i]));
    }
    assert calls[..|calls|] == calls;
  }

  /** `obj()`: whatever the calls, the finished bytes are the encoding of the document they build. */
  method Build(calls: seq<Call>) returns (obj: seq<byte>)
    requires ProperAll(calls)
    ensures WellFormedAll(Built(calls)) && obj == EncDoc(Built(calls))
  {
    BuiltWellFormed(calls);
    var builder := new BSONObjBuilder();
    PerformAll(builder, calls);
    obj := builder.Done();
    ghost var body := EncElements(Built(calls)) + [EOO];
    Regroup(Int32(|body| + 4), EncElements(Built(calls)), [EOO]);
  }

  /** Builder, validator and iterator agree: what any sequence of calls builds is accepted by
      `validateBSON`, and iterators read back exactly what was appended, at every nesting level. */
  method BuildValidateRead(calls: seq<Call>)
    returns (status: Option<BsonValidate.Status>, trees: seq<BsonElement.Tree>)
    requires ProperAll(calls) && |EncDoc(Built(calls))| <= MAX_INT
    ensures status == Some(BsonValidate.OK) && trees == BsonElement.TreesOf(Built(calls))
  {
    var obj := Build(calls);
    assert HoldsDocument(obj);
    ParsesExactlyDocuments(obj);
    status := BsonMachine.ValidateBSON(obj, BsonMachine.TurnsFor(obj));
    trees := BsonElement.ReadTrees(obj, 0, Built(calls));
  }
}
