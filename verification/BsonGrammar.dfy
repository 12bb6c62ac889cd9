/** BSON documents as values, and their bytes: the grammar of bsonspec.org (document, e_list,
    element), with the type codes of the client and the two odd lengths its validator lets through:
    a string whose length prefix is 0 and binary data whose length prefix is -1. */
module BsonGrammar {

  type byte = x: int | 0 <= x < 256

  // BSON type codes, as unsigned bytes.
  const EOO: byte := 0
  const NUMBER_DOUBLE: byte := 1
  const STRING: byte := 2
  const OBJECT: byte := 3
  const ARRAY: byte := 4
  const BIN_DATA: byte := 5
  const UNDEFINED: byte := 6
  const OID: byte := 7
  const BOOL: byte := 8
  const DATE: byte := 9
  const NULL: byte := 10
  const REGEX: byte := 11
  const DB_REF: byte := 12
  const CODE: byte := 13
  const SYMBOL: byte := 14
  const CODE_W_SCOPE: byte := 15
  const NUMBER_INT: byte := 16
  const TIMESTAMP: byte := 17
  const NUMBER_LONG: byte := 18
  const MAX_KEY: byte := 127
  const MIN_KEY: byte := 255

  const OID_BYTES := 12
  const MAX_INT := 0x7fff_ffff

  /** A length-prefixed string. `Bare` has a length prefix of 0 and nothing else; any other string
      counts its terminating NUL, and may hold NULs before it. */
  datatype Text = Bare | Terminated(chars: seq<byte>)

  datatype Value =
    | Fixed(kind: byte, data: seq<byte>)
    | Str(kind: byte, text: Text)
    | Ref(ns: Text, oid: seq<byte>)
    | Regex(pattern: seq<byte>, options: seq<byte>)
    | Binary(payload: seq<byte>)
    | Nested(kind: byte, doc: Elements)
    | Scoped(code: Text, scope: Elements)

  datatype Elements = Nil | Cons(name: seq<byte>, value: Value, rest: Elements)

  predicate NoNul(s: seq<byte>) {
    forall i | 0 <= i < |s| :: s[i] != 0
  }

  predicate IsFixed(kind: byte) {
    kind in {NUMBER_DOUBLE, UNDEFINED, OID, BOOL, DATE, NULL, NUMBER_INT, TIMESTAMP, NUMBER_LONG, MAX_KEY, MIN_KEY}
  }

  predicate IsText(kind: byte) {
    kind in {STRING, CODE, SYMBOL}
  }

  predicate IsNested(kind: byte) {
    kind in {OBJECT, ARRAY}
  }

  function FixedWidth(kind: byte): nat {
    if kind == OID then OID_BYTES
    else if kind == NUMBER_INT then 4
    else if kind == BOOL then 1
    else if kind in {NUMBER_DOUBLE, NUMBER_LONG, TIMESTAMP, DATE} then 8
    else 0
  }

  function Kind(v: Value): byte {
    match v
    case Fixed(kind, _) => kind
    case Str(kind, _) => kind
    case Ref(_, _) => DB_REF
    case Regex(_, _) => REGEX
    case Binary(_) => BIN_DATA
    case Nested(kind, _) => kind
    case Scoped(_, _) => CODE_W_SCOPE
  }

  predicate WellFormed(v: Value) {
    match v
    case Fixed(kind, data) => IsFixed(kind) && |data| == FixedWidth(kind)
    case Str(kind, _) => IsText(kind)
    case Ref(_, oid) => |oid| == OID_BYTES
    case Regex(pattern, options) => NoNul(pattern) && NoNul(options)
    case Binary(_) => true
    case Nested(kind, doc) => IsNested(kind) && WellFormedAll(doc)
    case Scoped(_, scope) => WellFormedAll(scope)
  }

  predicate WellFormedAll(es: Elements) {
    match es
    case Nil => true
    case Cons(name, value, rest) => NoNul(name) && WellFormed(value) && WellFormedAll(rest)
  }

  // ---------------------------------------------------------------- 32-bit little-endian integers

  /** The four bytes a cast to a 32-bit int stores. */
  function Int32(n: int): (bytes: seq<byte>)
    ensures |bytes| == 4
  {
    var n1 := n / 256;
    var n2 := n1 / 256;
    var n3 := n2 / 256;
    [n % 256, n1 % 256, n2 % 256, n3 % 256]
  }

  /** The signed 32-bit int that four bytes hold. */
  function FromBytes(b0: int, b1: int, b2: int, b3: int): int {
    b0 + 256 * (b1 + 256 * (b2 + 256 * (if b3 >= 128 then b3 - 256 else b3)))
  }

  /** The signed 32-bit int stored at position p. */
  function Int32At(b: seq<byte>, p: nat): (n: int)
    requires p + 4 <= |b|
    ensures -MAX_INT - 1 <= n <= MAX_INT
  {
    FromBytes(b[p], b[p + 1], b[p + 2], b[p + 3])
  }

  lemma Int32ReadsBack(b: seq<byte>, p: nat, n: int)
    requires p + 4 <= |b| && b[p..p + 4] == Int32(n) && -MAX_INT - 1 <= n <= MAX_INT
    ensures Int32At(b, p) == n
  {
  }

  lemma LowByte(low: byte, high: int)
    ensures (low + 256 * high) / 256 == high && (low + 256 * high) % 256 == low
  {
  }

  lemma Int32WritesBack(b: seq<byte>, p: nat)
    requires p + 4 <= |b|
    ensures Int32(Int32At(b, p)) == b[p..p + 4]
  {
    var n3 := b[p + 3] as int - (if b[p + 3] >= 128 then 256 else 0);
    var n2 := b[p + 2] as int + 256 * n3;
    var n1 := b[p + 1] as int + 256 * n2;
    LowByte(b[p], n1);
    LowByte(b[p + 1], n2);
    LowByte(b[p + 2], n3);
  }

  // ---------------------------------------------------------------- encoding

  function EncText(t: Text): seq<byte> {
    match t
    case Bare => Int32(0)
    case Terminated(chars) => Int32(|chars| + 1) + chars + [0]
  }

  function EncValue(v: Value): seq<byte>
    decreases v, 0
  {
    match v
    case Fixed(_, data) => data
    case Str(_, text) => EncText(text)
    case Ref(ns, oid) => EncText(ns) + oid
    case Regex(pattern, options) => pattern + [0] + options + [0]
    case Binary(payload) => Int32(|payload| - 1) + payload
    case Nested(_, doc) => EncDoc(doc)
    case Scoped(code, scope) =>
      var inner := EncText(code) + EncDoc(scope);
      Int32(|inner| + 4) + inner
  }

  function EncElement(name: seq<byte>, v: Value): seq<byte>
    decreases v, 1
  {
    [Kind(v)] + name + [0] + EncValue(v)
  }

  function EncElements(es: Elements): seq<byte>
    decreases es, 0
  {
    match es
    case Nil => []
    case Cons(name, value, rest) => EncElement(name, value) + EncElements(rest)
  }

  function EncDoc(es: Elements): seq<byte>
    decreases es, 1
  {
    var body := EncElements(es) + [0];
    Int32(|body| + 4) + body
  }

  /** A buffer holds a document when some prefix of it is the encoding of one. */
  ghost predicate HoldsDocument(b: seq<byte>) {
    exists es :: WellFormedAll(es) && EncDoc(es) <= b
  }
}
