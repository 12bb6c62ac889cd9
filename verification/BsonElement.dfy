/** `BSONElement::size`, which recomputes the extent of an element from raw bytes, and the iterator
    that steps by it. */
module BsonElement {
  import opened Wrappers
  import opened BsonGrammar
  import opened BsonParse

  // ---------------------------------------------------------------- what the element accessors compute

  /** The terminator of the field name of a (non-EOO) element at p; None if strlen runs out of b. */
  function NameEnd(b: seq<byte>, p: nat): Option<nat>
    requires p < |b|
  {
    FindNul(b, p + 1)
  }

  /** The value part of `size()`: a switch on the type, reading length prefixes from the value. None
      stands for a read outside b or for the "bad type" assertion. */
  function ValueSize(b: seq<byte>, kind: byte, v: nat): Option<int>
    requires v <= |b|
  {
    if IsFixed(kind) then Some(FixedWidth(kind))
    else if kind == REGEX then
      var n := FindNul(b, v);
      if n.None? then None
      else
        var m := FindNul(b, n.value + 1);
        if m.None? then None else Some((n.value - v) + 1 + (m.value - (n.value + 1)) + 1)
    else if v + 4 > |b| then None
    else if IsText(kind) then Some(Int32At(b, v) + 4)
    else if kind == DB_REF then Some(Int32At(b, v) + 4 + OID_BYTES)
    else if IsNested(kind) || kind == CODE_W_SCOPE then Some(Int32At(b, v))
    else if kind == BIN_DATA then Some(Int32At(b, v) + 4 + 1)
    else None
  }

  /** `size()`: type byte, field name and value. */
  function ElementSize(b: seq<byte>, p: nat): Option<int>
    requires p < |b|
  {
    if b[p] == EOO then Some(1)
    else
      var n := NameEnd(b, p);
      if n.None? then None
      else
        var x := ValueSize(b, b[p], n.value + 1);
        if x.None? then None else Some(x.value + (n.value - p) + 1)
  }

  /** mongo::strnlen: the length of the string at p if its NUL is among the first n bytes. */
  function Strnlen(b: seq<byte>, p: nat, n: int): Option<nat>
    requires p <= |b|
  {
    var z := FindNul(b, p);
    if z.Some? && z.value - p < n then Some(z.value - p) else None
  }

  datatype SizeError = InvalidFieldName | InsufficientBytes | BadType

  /** `size(maxLen)` of an element constructed with the same maxLen. */
  function BoundedSize(b: seq<byte>, p: nat, maxLen: nat): Result<int, SizeError>
    requires p < |b| && p + maxLen <= |b|
  {
    if b[p] == EOO then Ok(1)
    else
      var name := Strnlen(b, p + 1, maxLen - 1);
      if name.None? then Err(InvalidFieldName)
      else
        var v := p + 1 + name.value + 1;
        var remain := maxLen - (name.value + 1) - 1;
        if IsFixed(b[p]) then Ok(FixedWidth(b[p]) + name.value + 1 + 1)
        else if b[p] == REGEX then
          // A missing NUL is not reported: strnlen's -1 is added up like any other length.
          var len1 := Strnlen(b, v, remain);
          if len1.None? then Ok(name.value + 1 + 1)
          else
            var len2 := Strnlen(b, v + len1.value + 1, remain - len1.value - 1);
            Ok(len1.value + 1 + (if len2.Some? then len2.value + 1 else 0) + name.value + 1 + 1)
        else if remain <= 3 then Err(InsufficientBytes)
        else
          var x := ValueSize(b, b[p], v);
          if x.None? then Err(BadType) else Ok(x.value + name.value + 1 + 1)
  }

  /** The element at p, which ends at q, is one the grammar knows. */
  predicate ElementAt(b: seq<byte>, p: nat, name: seq<byte>, v: Value, q: nat) {
    && p < q <= |b|
    && b[p] == Kind(v) != EOO
    && p + 2 + |name| <= q
    && FindNul(b, p + 1) == Some(p + 1 + |name|) && b[p + 1..p + 1 + |name|] == name
    && ParseValue(b, b[p], p + 2 + |name|) == Parsed(v, q)
  }

  /** The unchecked size of a value is what the grammar (and so the validator) consumes for it. */
  lemma ValueSizeAgrees(b: seq<byte>, kind: byte, p: nat)
    requires p <= |b| && ParseValue(b, kind, p).Parsed?
    ensures ValueSize(b, kind, p) == Some(ParseValue(b, kind, p).end - p)
  {
  }

  lemma ElementSizeAgrees(b: seq<byte>, p: nat, name: seq<byte>, v: Value, q: nat)
    requires ElementAt(b, p, name, v, q)
    ensures ElementSize(b, p) == Some(q - p)
  {
    hide ParseValue, ValueSize, NoNul;
    ValueSizeAgrees(b, b[p], p + 2 + |name|);
  }

  /** The bounded size agrees with the unbounded one as soon as the bound covers the element. */
  lemma BoundedSizeAgrees(b: seq<byte>, p: nat, name: seq<byte>, v: Value, q: nat, maxLen: nat)
    requires ElementAt(b, p, name, v, q) && q - p <= maxLen && p + maxLen <= |b|
    ensures BoundedSize(b, p, maxLen) == Ok(q - p)
  {
    hide NoNul, FindNul, ParseElements, ParseText, ParseRef, ParseBinary, ParseDoc, Int32At;
    var value := p + 2 + |name|;
    ValueSizeAgrees(b, b[p], value);
    if b[p] != REGEX {
      LeastSize(b, b[p], value);
      hide ParseValue, ValueSize;
    }
  }

  /** Values of variable size have a length prefix. */
  lemma LeastSize(b: seq<byte>, kind: byte, p: nat)
    requires p <= |b| && ParseValue(b, kind, p).Parsed?
    ensures !IsFixed(kind) && kind != REGEX ==> ParseValue(b, kind, p).end - p >= 4
  {
    hide Int32At, ParseElements;
  }

  // ---------------------------------------------------------------- cached sizes

  /** `BSONElement`: a place in a buffer, with the name size and total size cached once computed. */
  class BSONElement {
    const b: seq<byte>
    const data: nat
    var fieldNameSize: int
    var totalSize: int

    ghost predicate Valid()
      reads this
    {
      && data < |b| && ElementSize(b, data).Some?
      && (fieldNameSize == -1 || fieldNameSize == NameSize())
      && (totalSize == -1 || totalSize == ElementSize(b, data).value)
      && (b[data] == EOO ==> fieldNameSize == 0 && totalSize == 1)
    }

    ghost function NameSize(): int
      requires data < |b| && ElementSize(b, data).Some?
    {
      if b[data] == EOO then 0 else NameEnd(b, data).value - data
    }

    constructor (bytes: seq<byte>, at: nat)
      requires at < |bytes| && ElementSize(bytes, at).Some?
      ensures Valid() && b == bytes && data == at
    {
      b := bytes;
      data := at;
      fieldNameSize := -1;
      totalSize := -1;
      if bytes[at] == EOO {
        fieldNameSize := 0;
        totalSize := 1;
      }
    }

    function Type(): byte
      requires data < |b|
    {
      b[data]
    }

    method FieldNameSize() returns (r: int)
      requires Valid()
      modifies this
      ensures Valid() && r == NameSize()
    {
      if fieldNameSize == -1 {
        fieldNameSize := NameEnd(b, data).value - data;
      }
      r := fieldNameSize;
    }

    /** Whichever of the caches is filled, `size()` returns the size the bytes have. */
    method Size() returns (r: int)
      requires Valid()
      modifies this
      ensures Valid() && r == ElementSize(b, data).value
    {
      if totalSize >= 0 {
        return totalSize;
      }
      var nameSize := FieldNameSize();
      var x := ValueSize(b, Type(), data + nameSize + 1);
      totalSize := x.value + nameSize + 1;
      r := totalSize;
    }
  }

  // ---------------------------------------------------------------- iteration

  /** One element as the iterator hands it out. */
  datatype Item = Item(kind: byte, name: seq<byte>, value: seq<byte>)

  function Items(es: Elements): seq<Item> {
    match es
    case Nil => []
    case Cons(name, v, rest) => [Item(Kind(v), name, EncValue(v))] + Items(rest)
  }

  /** `BSONObjIterator` over the document at `start`. */
  class BSONObjIterator {
    const b: seq<byte>
    const theEnd: int
    var pos: int
    ghost var left: Elements

    ghost predicate Valid()
      reads this
    {
      && |b| <= MAX_INT && WellFormedAll(left)
      && 0 <= pos && Stands(b, pos, EncElements(left) + [EOO])
      && theEnd == pos + |EncElements(left)|
    }

    constructor (bytes: seq<byte>, start: nat, ghost es: Elements)
      requires |bytes| <= MAX_INT && WellFormedAll(es) && Stands(bytes, start, EncDoc(es))
      ensures Valid() && b == bytes && left == es && pos == start + 4 && theEnd == start + |EncDoc(es)| - 1
    {
      var body := EncElements(es) + [EOO];
      Parts(bytes, start, Int32(|body| + 4), body);
      Int32ReadsBack(bytes, start, |body| + 4);
      b := bytes;
      var sz := Int32At(bytes, start);
      pos := start + 4;
      theEnd := start + sz - 1;
      left := es;
    }

    method More() returns (r: bool)
      requires Valid()
      ensures r <==> left.Cons?
    {
      assert left.Cons? ==> |EncElement(left.name, left.value)| >= 2;
      r := pos < theEnd;
    }

    /** When `more()` is false the iterator stands exactly on the EOO of its document. */
    lemma StopsAtEoo()
      requires Valid() && left.Nil?
      ensures pos == theEnd && b[pos] == EOO
    {
    }

    /** `next(true)`: the bounded size, checked against the end of the document, steps as far. */
    method NextChecked() returns (item: Item)
      requires Valid() && left.Cons?
      modifies this
      ensures Valid() && left == old(left.rest) && old(pos) < pos <= theEnd
      ensures item == Item(Kind(old(left.value)), old(left.name), EncValue(old(left.value)))
    {
      hide EncElement, EncValue, ParseValue, FindNul, BoundedSize, ElementSize, Stands, Int32At;
      ghost var q := pos + |EncElement(left.name, left.value)|;
      NextFound(b, pos, left);
      ElementFacts(b, pos, left.name, left.value, q);
      StandsInside(b, q, EncElements(left.rest) + [EOO]);
      var maxLen := theEnd + 1 - pos;
      BoundedSizeAgrees(b, pos, left.name, left.value, q, maxLen);
      var size := BoundedSize(b, pos, maxLen);
      // Neither an assertion of size(maxLen) nor "BSONElement has bad size" can fire.
      assert size.Ok? && size.value > 0;
      var nameSize := NameEnd(b, pos).value - pos;
      item := Item(b[pos], b[pos + 1..pos + nameSize], b[pos + nameSize + 1..pos + size.value]);
      pos := pos + size.value;
      left := left.rest;
    }

    /** `next()` by the unchecked size: the element is the next one that was encoded, and the
        iterator stays inside the document. */
    method Next() returns (item: Item)
      requires Valid() && left.Cons?
      modifies this
      ensures Valid() && left == old(left.rest) && old(pos) < pos <= theEnd
      ensures item == Item(Kind(old(left.value)), old(left.name), EncValue(old(left.value)))
    {
      hide EncElement, EncValue, ParseValue, FindNul, ElementSize, Stands, Int32At;
      ghost var q := pos + |EncElement(left.name, left.value)|;
      NextFound(b, pos, left);
      ElementFacts(b, pos, left.name, left.value, q);
      var e := new BSONElement(b, pos);
      var nameSize := e.FieldNameSize();
      var size := e.Size();
      item := Item(e.Type(), b[pos + 1..pos + nameSize], b[pos + nameSize + 1..pos + size]);
      pos := pos + size;
      left := left.rest;
    }
  }

  /** What the accessors find in an element of the grammar. */
  lemma ElementFacts(b: seq<byte>, p: nat, name: seq<byte>, v: Value, q: nat)
    requires ElementAt(b, p, name, v, q)
    ensures ElementSize(b, p) == Some(q - p) && NameEnd(b, p) == Some(p + 1 + |name|)
    ensures b[p + 2 + |name|..q] == EncValue(v)
  {
    hide EncValue, ParseValue, FindNul, ElementSize;
    ElementSizeAgrees(b, p, name, v, q);
    ValueSound(b, b[p], p + 2 + |name|);
  }

  lemma StandsInside(b: seq<byte>, p: nat, x: seq<byte>)
    requires Stands(b, p, x)
    ensures p + |x| <= |b|
  {
  }

  lemma NextFound(b: seq<byte>, p: nat, es: Elements)
    requires es.Cons? && |b| <= MAX_INT && WellFormedAll(es) && Stands(b, p, EncElements(es) + [EOO])
    ensures var q := p + |EncElement(es.name, es.value)|;
            && ElementAt(b, p, es.name, es.value, q)
            && Stands(b, q, EncElements(es.rest) + [EOO])
            && q + |EncElements(es.rest)| == p + |EncElements(es)|
  {
    hide ParseValue, FindNul, Stands, EncValue, NoNul;
    var Cons(name, v, rest) := es;
    var tail := EncElements(rest) + [EOO];
    Regroup(EncElement(name, v), EncElements(rest), [EOO]);
    ElementComplete(b, p, name, v, tail);
    StandsInside(b, p + |EncElement(name, v)|, tail);
  }

  // ---------------------------------------------------------------- reading a whole document back

  /** An element and, for an object, array or CodeWScope, the elements inside it. */
  datatype Tree = Tree(item: Item, children: seq<Tree>)

  function TreesOf(es: Elements): seq<Tree> {
    match es
    case Nil => []
    case Cons(name, v, rest) => [Tree(Item(Kind(v), name, EncValue(v)), Children(v))] + TreesOf(rest)
  }

  function Children(v: Value): seq<Tree> {
    match v
    case Nested(_, doc) => TreesOf(doc)
    case Scoped(_, scope) => TreesOf(scope)
    case _ => []
  }

  /** The document inside a value; an empty one if it holds none. */
  function Inside(v: Value): Elements {
    match v
    case Nested(_, doc) => doc
    case Scoped(_, scope) => scope
    case _ => Nil
  }

  /** Where `embeddedObject()` and `codeWScopeObject()` find the document inside a value. */
  function InsideAt(b: seq<byte>, kind: byte, value: nat): int
    requires kind == CODE_W_SCOPE ==> value + 8 <= |b|
  {
    if kind == CODE_W_SCOPE then value + 4 + 4 + Int32At(b, value + 4) else value
  }

  lemma InsideStands(b: seq<byte>, p: nat, v: Value)
    requires |b| <= MAX_INT && (v.Nested? || v.Scoped?) && WellFormed(v) && Stands(b, p, EncValue(v))
    ensures Kind(v) == CODE_W_SCOPE <==> v.Scoped?
    ensures v.Scoped? ==> p + 8 <= |b|
    ensures var at := InsideAt(b, Kind(v), p);
            at >= 0 && Stands(b, at, EncDoc(Inside(v))) && |EncDoc(Inside(v))| <= |EncValue(v)|
  {
    if v.Scoped? {
      ScopedStands(b, p, v.code, v.scope);
    }
    hide EncDoc, EncText, Int32At, Int32, Stands;
  }

  lemma ScopedStands(b: seq<byte>, p: nat, code: Text, scope: Elements)
    requires |b| <= MAX_INT && Stands(b, p, EncValue(Scoped(code, scope)))
    ensures p + 8 <= |b| && InsideAt(b, CODE_W_SCOPE, p) == p + 4 + |EncText(code)|
    ensures Stands(b, p + 4 + |EncText(code)|, EncDoc(scope)) && |EncDoc(scope)| <= |EncValue(Scoped(code, scope))|
  {
    var inner := EncText(code) + EncDoc(scope);
    ScopedFacts(code, scope);
    hide EncDoc, EncText, EncValue, Int32At, Int32, Stands;
    Parts(b, p, Int32(|inner| + 4), inner);
    Parts(b, p + 4, EncText(code), EncDoc(scope));
    TextPrefix(b, p + 4, code);
  }

  /** The length prefix of a string counts the bytes that follow it. */
  lemma TextPrefix(b: seq<byte>, p: nat, t: Text)
    requires |b| <= MAX_INT && Stands(b, p, EncText(t))
    ensures p + 4 <= |b| && Int32At(b, p) + 4 == |EncText(t)|
  {
  }

  /** Reading a document with iterators at every level gives back exactly the elements it encodes. */
  method ReadTrees(b: seq<byte>, start: nat, ghost es: Elements) returns (trees: seq<Tree>)
    requires |b| <= MAX_INT && WellFormedAll(es) && Stands(b, start, EncDoc(es))
    ensures trees == TreesOf(es)
    decreases |EncDoc(es)|
  {
    hide EncElement, EncElements, EncDoc, EncValue, Stands, InsideAt, WellFormedAll, WellFormed, TreesOf;
    trees := [];
    var it := new BSONObjIterator(b, start, es);
    DocLength(es);
    var more := it.More();
    while more
      invariant it.Valid() && it.b == b && fresh(it) && more == it.left.Cons?
      invariant trees + TreesOf(it.left) == TreesOf(es)
      invariant |EncElements(it.left)| + 5 <= |EncDoc(es)|
      decreases it.left
    {
      ghost var v := it.left.value;
      ghost var now := it.left;
      var at := it.pos;
      ElementHolds(b, at, it.left);
      var item := it.Next();
      var children := [];
      if IsNested(item.kind) || item.kind == CODE_W_SCOPE {
        InsideStands(b, at + 2 + |item.name|, v);
        children := ReadTrees(b, InsideAt(b, item.kind, at + 2 + |item.name|), Inside(v));
      }
      TreesStep(now, children);
      Regroup(trees, [Tree(item, children)], TreesOf(it.left));
      trees := trees + [Tree(item, children)];
      more := it.More();
    }
    TreesEnd(it.left);
  }

  lemma TreesStep(es: Elements, children: seq<Tree>)
    requires es.Cons?
    requires children == if es.value.Nested? || es.value.Scoped? then TreesOf(Inside(es.value)) else []
    ensures TreesOf(es) == [Tree(Item(Kind(es.value), es.name, EncValue(es.value)), children)] + TreesOf(es.rest)
  {
  }

  lemma TreesEnd(es: Elements)
    ensures es.Nil? ==> TreesOf(es) == []
  {
  }

  lemma DocLength(es: Elements)
    ensures |EncDoc(es)| == |EncElements(es)| + 5
  {
  }

  lemma ConsLengths(name: seq<byte>, v: Value, rest: Elements)
    ensures |EncElement(name, v)| == |name| + 2 + |EncValue(v)|
    ensures |EncElements(Cons(name, v, rest))| == |EncElement(name, v)| + |EncElements(rest)|
  {
  }

  lemma KindOfNested(v: Value)
    requires WellFormed(v)
    ensures (IsNested(Kind(v)) || Kind(v) == CODE_W_SCOPE) <==> v.Nested? || v.Scoped?
    ensures WellFormedAll(Inside(v))
  {
  }

  lemma SliceStands(b: seq<byte>, p: nat, x: seq<byte>)
    requires p + |x| <= |b| && b[p..p + |x|] == x
    ensures Stands(b, p, x)
  {
  }

  lemma ElementHolds(b: seq<byte>, p: nat, es: Elements)
    requires es.Cons? && |b| <= MAX_INT && WellFormedAll(es) && Stands(b, p, EncElements(es) + [EOO])
    ensures Stands(b, p + 2 + |es.name|, EncValue(es.value))
    ensures |EncValue(es.value)| + 2 <= |EncElements(es)|
    ensures (IsNested(Kind(es.value)) || Kind(es.value) == CODE_W_SCOPE) <==> es.value.Nested? || es.value.Scoped?
    ensures WellFormed(es.value) && WellFormedAll(Inside(es.value))
    ensures |EncElements(es.rest)| <= |EncElements(es)|
  {
    hide *;
    var Cons(name, v, rest) := es;
    NextFound(b, p, es);
    ConsFacts(name, v, rest);
    ConsLengths(name, v, rest);
    KindOfNested(v);
    StandsInside(b, p + |EncElement(name, v)|, EncElements(rest) + [EOO]);
    ElementFacts(b, p, name, v, p + |EncElement(name, v)|);
    SliceStands(b, p + 2 + |name|, EncValue(v));
  }
}
