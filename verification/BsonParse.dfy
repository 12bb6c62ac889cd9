/** A recursive-descent reading of the document grammar, in the order in which the validator reads
    bytes. It is the bridge between the validator's loop and the grammar. */
module BsonParse {
  import opened Wrappers
  import opened BsonGrammar

  /** `NegativeLength`: a negative length prefix was met. It belongs to no document, and moves the
      validator's position backwards. */
  datatype Parse<+T> = Parsed(value: T, end: nat) | Malformed | NegativeLength

  /** memchr for a NUL from position p on. */
  function FindNul(b: seq<byte>, p: nat): (r: Option<nat>)
    requires p <= |b|
    ensures r.Some? ==> p <= r.value < |b| && b[r.value] == 0 && NoNul(b[p..r.value])
    ensures r.None? ==> NoNul(b[p..])
    decreases |b| - p
  {
    if p == |b| then None
    else if b[p] == 0 then Some(p)
    else FindNul(b, p + 1)
  }

  function ParseText(b: seq<byte>, p: nat): (r: Parse<Text>)
    requires p <= |b|
    ensures r.Parsed? ==> p < r.end <= |b|
  {
    if p + 4 > |b| then Malformed
    else
      var sz := Int32At(b, p);
      var q := p + 4;
      if sz < 0 then NegativeLength
      else if sz == 0 then Parsed(Bare, q)
      else if q + sz - 1 >= |b| || b[q + sz - 1] != 0 then Malformed
      else Parsed(Terminated(b[q..q + sz - 1]), q + sz)
  }

  function ParseRef(b: seq<byte>, p: nat): (r: Parse<Value>)
    requires p <= |b|
    ensures r.Parsed? ==> p < r.end < |b|
  {
    match ParseText(b, p)
    case Malformed => Malformed
    case NegativeLength => NegativeLength
    case Parsed(ns, q) =>
      if q + OID_BYTES >= |b| then Malformed
      else Parsed(Ref(ns, b[q..q + OID_BYTES]), q + OID_BYTES)
  }

  function ParseRegex(b: seq<byte>, p: nat): (r: Parse<Value>)
    requires p <= |b|
    ensures r.Parsed? ==> p < r.end <= |b|
  {
    var n := FindNul(b, p);
    if n.None? then Malformed
    else
      var m := FindNul(b, n.value + 1);
      if m.None? then Malformed
      else Parsed(Regex(b[p..n.value], b[n.value + 1..m.value]), m.value + 1)
  }

  function ParseBinary(b: seq<byte>, p: nat): (r: Parse<Value>)
    requires p <= |b|
    ensures r.Parsed? ==> p < r.end < |b|
  {
    if p + 4 > |b| then Malformed
    else
      var sz := Int32At(b, p);
      if sz < -1 then NegativeLength
      else if p + 4 + 1 + sz >= |b| then Malformed
      else Parsed(Binary(b[p + 4..p + 4 + 1 + sz]), p + 4 + 1 + sz)
  }

  function ParseValue(b: seq<byte>, kind: byte, p: nat): (r: Parse<Value>)
    requires p <= |b|
    ensures r.Parsed? ==> p <= r.end <= |b|
    decreases |b| - p, 1
  {
    if IsFixed(kind) then
      var w := FixedWidth(kind);
      if w > 0 && p + w >= |b| then Malformed else Parsed(Fixed(kind, b[p..p + w]), p + w)
    else if IsText(kind) then
      match ParseText(b, p)
      case Malformed => Malformed
      case NegativeLength => NegativeLength
      case Parsed(text, q) => Parsed(Str(kind, text), q)
    else if kind == DB_REF then ParseRef(b, p)
    else if kind == REGEX then ParseRegex(b, p)
    else if kind == BIN_DATA then ParseBinary(b, p)
    else if IsNested(kind) then
      match ParseDoc(b, p)
      case Malformed => Malformed
      case NegativeLength => NegativeLength
      case Parsed(doc, q) => Parsed(Nested(kind, doc), q)
    else if kind == CODE_W_SCOPE then
      if p + 4 > |b| then Malformed
      else match ParseText(b, p + 4)
        case Malformed => Malformed
        case NegativeLength => NegativeLength
        case Parsed(code, q) =>
          match ParseDoc(b, q)
          case Malformed => Malformed
          case NegativeLength => NegativeLength
          case Parsed(scope, r) =>
            if r - p == Int32At(b, p) then Parsed(Scoped(code, scope), r) else Malformed
    else Malformed
  }

  function ParseDoc(b: seq<byte>, p: nat): (r: Parse<Elements>)
    requires p <= |b|
    ensures r.Parsed? ==> p < r.end <= |b|
    decreases |b| - p, 0
  {
    if p + 4 > |b| then Malformed
    else match ParseElements(b, p + 4)
      case Malformed => Malformed
      case NegativeLength => NegativeLength
      case Parsed(es, q) => if q - p == Int32At(b, p) then Parsed(es, q) else Malformed
  }

  /** The elements from position p on, and the EOO that ends them. */
  function ParseElements(b: seq<byte>, p: nat): (r: Parse<Elements>)
    requires p <= |b|
    ensures r.Parsed? ==> p < r.end <= |b|
    decreases |b| - p, 2
  {
    if p == |b| then Malformed
    else if b[p] == EOO then Parsed(Nil, p + 1)
    else
      var n := FindNul(b, p + 1);
      if n.None? then Malformed
      else match ParseValue(b, b[p], n.value + 1)
        case Malformed => Malformed
        case NegativeLength => NegativeLength
        case Parsed(v, q) =>
          match ParseElements(b, q)
          case Malformed => Malformed
          case NegativeLength => NegativeLength
          case Parsed(rest, r) => Parsed(Cons(b[p + 1..n.value], v, rest), r)
  }

  // ---------------------------------------------------------------- what is parsed is encoded there

  lemma Join(b: seq<byte>, p: nat, q: nat, r: nat)
    requires p <= q <= r <= |b|
    ensures b[p..q] + b[q..r] == b[p..r]
  {
  }

  lemma TextSound(b: seq<byte>, p: nat)
    requires p <= |b| && ParseText(b, p).Parsed?
    ensures b[p..ParseText(b, p).end] == EncText(ParseText(b, p).value)
  {
    hide Int32, Int32At;
    Int32WritesBack(b, p);
    var q, r := p + 4, ParseText(b, p).end;
    if r > q {
      var chars := b[q..r - 1];
      assert ParseText(b, p).value == Terminated(chars) && |chars| + 1 == Int32At(b, p);
      assert b[p..r - 1] == Int32(|chars| + 1) + chars by {
        Join(b, p, q, r - 1);
      }
      assert b[r - 1..r] == [0];
      Join(b, p, r - 1, r);
    }
  }

  lemma RefSound(b: seq<byte>, p: nat)
    requires p <= |b| && ParseRef(b, p).Parsed?
    ensures var r := ParseRef(b, p);
            WellFormed(r.value) && Kind(r.value) == DB_REF && b[p..r.end] == EncValue(r.value)
  {
    TextSound(b, p);
    Join(b, p, ParseText(b, p).end, ParseRef(b, p).end);
  }

  lemma RegexSound(b: seq<byte>, p: nat)
    requires p <= |b| && ParseRegex(b, p).Parsed?
    ensures var r := ParseRegex(b, p);
            WellFormed(r.value) && Kind(r.value) == REGEX && b[p..r.end] == EncValue(r.value)
  {
    hide *;
    var n, m := RegexParts(b, p);
    RegexFacts(b[p..n], b[n + 1..m]);
    TerminatedTwice(b, p, n, m);
  }

  /** The two terminators of a regular expression. */
  lemma RegexParts(b: seq<byte>, p: nat) returns (n: nat, m: nat)
    requires p <= |b| && ParseRegex(b, p).Parsed?
    ensures p <= n < m < |b| && b[n] == 0 && b[m] == 0 && NoNul(b[p..n]) && NoNul(b[n + 1..m])
    ensures ParseRegex(b, p) == Parsed(Regex(b[p..n], b[n + 1..m]), m + 1)
  {
    hide FindNul, NoNul;
    n := FindNul(b, p).value;
    m := FindNul(b, n + 1).value;
  }

  lemma RegexFacts(pattern: seq<byte>, options: seq<byte>)
    ensures Kind(Regex(pattern, options)) == REGEX
    ensures WellFormed(Regex(pattern, options)) <==> NoNul(pattern) && NoNul(options)
    ensures EncValue(Regex(pattern, options)) == pattern + [0] + options + [0]
  {
    hide NoNul;
  }

  lemma TerminatedTwice(b: seq<byte>, p: nat, n: nat, m: nat)
    requires p <= n < m < |b| && b[n] == 0 && b[m] == 0
    ensures b[p..m + 1] == b[p..n] + [0] + b[n + 1..m] + [0]
  {
  }

  lemma BinarySound(b: seq<byte>, p: nat)
    requires p <= |b| && ParseBinary(b, p).Parsed?
    ensures var r := ParseBinary(b, p);
            WellFormed(r.value) && Kind(r.value) == BIN_DATA && b[p..r.end] == EncValue(r.value)
  {
    Int32WritesBack(b, p);
    Join(b, p, p + 4, ParseBinary(b, p).end);
  }

  lemma ScopedParts(b: seq<byte>, p: nat)
    requires p <= |b| && ParseValue(b, CODE_W_SCOPE, p).Parsed?
    ensures p + 4 <= |b|
    ensures
      var text := ParseText(b, p + 4);
      text.Parsed? &&
      var doc := ParseDoc(b, text.end);
      && doc.Parsed? && doc.end - p == Int32At(b, p)
      && ParseValue(b, CODE_W_SCOPE, p) == Parsed(Scoped(text.value, doc.value), doc.end)
  {
  }

  /** A length, itself included, in front of what it measures. */
  lemma Measured(b: seq<byte>, p: nat, end: nat, x: seq<byte>)
    requires p + 4 <= end <= |b| && b[p + 4..end] == x && Int32At(b, p) == end - p
    ensures b[p..end] == Int32(|x| + 4) + x
  {
    Int32WritesBack(b, p);
    hide Int32, Int32At;
    Join(b, p, p + 4, end);
  }

  lemma {:induction false} ScopedSound(b: seq<byte>, p: nat)
    requires p <= |b| && ParseValue(b, CODE_W_SCOPE, p).Parsed?
    ensures var r := ParseValue(b, CODE_W_SCOPE, p);
            WellFormed(r.value) && Kind(r.value) == CODE_W_SCOPE && b[p..r.end] == EncValue(r.value)
    decreases |b| - p, 1
  {
    hide *;
    ScopedParts(b, p);
    var text := ParseText(b, p + 4);
    var doc := ParseDoc(b, text.end);
    ScopedFacts(text.value, doc.value);
    TextSound(b, p + 4);
    DocSound(b, text.end);
    Join(b, p + 4, text.end, doc.end);
    Measured(b, p, doc.end, EncText(text.value) + EncDoc(doc.value));
  }

  lemma ScopedFacts(code: Text, scope: Elements)
    ensures Kind(Scoped(code, scope)) == CODE_W_SCOPE
    ensures WellFormed(Scoped(code, scope)) <==> WellFormedAll(scope)
    ensures var inner := EncText(code) + EncDoc(scope); EncValue(Scoped(code, scope)) == Int32(|inner| + 4) + inner
  {
    hide Int32, EncText, EncDoc;
  }

  lemma {:induction false} ValueSound(b: seq<byte>, kind: byte, p: nat)
    requires p <= |b| && ParseValue(b, kind, p).Parsed?
    ensures var r := ParseValue(b, kind, p);
            WellFormed(r.value) && Kind(r.value) == kind && b[p..r.end] == EncValue(r.value)
    decreases |b| - p, 2
  {
    if IsFixed(kind) {
    } else if IsText(kind) {
      TextSound(b, p);
    } else if kind == DB_REF {
      RefSound(b, p);
    } else if kind == REGEX {
      RegexSound(b, p);
    } else if kind == BIN_DATA {
      BinarySound(b, p);
    } else if IsNested(kind) {
      DocSound(b, p);
    } else {
      ScopedSound(b, p);
    }
  }

  lemma {:induction false} DocSound(b: seq<byte>, p: nat)
    requires p <= |b| && ParseDoc(b, p).Parsed?
    ensures var r := ParseDoc(b, p);
            WellFormedAll(r.value) && b[p..r.end] == EncDoc(r.value)
    decreases |b| - p, 0
  {
    ElementsSound(b, p + 4);
    Int32WritesBack(b, p);
    Join(b, p, p + 4, ParseDoc(b, p).end);
  }

  lemma {:induction false} ElementsSound(b: seq<byte>, p: nat)
    requires p <= |b| && ParseElements(b, p).Parsed?
    ensures var r := ParseElements(b, p);
            WellFormedAll(r.value) && b[p..r.end] == EncElements(r.value) + [EOO]
    decreases |b| - p, 3
  {
    if b[p] != EOO {
      var n := FindNul(b, p + 1).value;
      var v := ParseValue(b, b[p], n + 1);
      var rest := ParseElements(b, v.end);
      ValueSound(b, b[p], n + 1);
      ElementsSound(b, v.end);
      ElementBytes(b, p, n, v.value, v.end);
      Join(b, p, v.end, rest.end);
      Regroup(b[p..v.end], EncElements(rest.value), [EOO]);
    }
  }

  /** The bytes of one element, piece by piece. */
  lemma ElementBytes(b: seq<byte>, p: nat, n: nat, v: Value, q: nat)
    requires p < n < q <= |b| + 1 && n < |b| && n + 1 <= q <= |b|
    requires b[p] == Kind(v) && b[n] == 0 && b[n + 1..q] == EncValue(v)
    ensures b[p..q] == EncElement(b[p + 1..n], v)
  {
    Join(b, p, p + 1, n);
    Join(b, p, n, n + 1);
    Join(b, p, n + 1, q);
  }

  // ---------------------------------------------------------------- what is encoded is parsed

  /** The bytes x stand at position p. */
  predicate Stands(b: seq<byte>, p: nat, x: seq<byte>) {
    p + |x| <= |b| && b[p..p + |x|] == x
  }

  lemma Parts(b: seq<byte>, p: nat, x: seq<byte>, y: seq<byte>)
    requires Stands(b, p, x + y)
    ensures Stands(b, p, x) && Stands(b, p + |x|, y)
  {
    var w := b[p..p + |x + y|];
    assert x == w[..|x|] && y == w[|x|..];
  }

  lemma {:induction false} NulFound(b: seq<byte>, p: nat, n: nat)
    requires p <= n < |b| && NoNul(b[p..n]) && b[n] == 0
    ensures FindNul(b, p) == Some(n)
    decreases n - p
  {
  }

  /** A NUL-terminated name or pattern at position p. */
  lemma CStringFound(b: seq<byte>, p: nat, s: seq<byte>)
    requires Stands(b, p, s + [0]) && NoNul(s)
    ensures FindNul(b, p) == Some(p + |s|) && b[p..p + |s|] == s
  {
    Parts(b, p, s, [0]);
    assert b[p + |s|] == b[p + |s|..p + |s| + 1][0];
    NulFound(b, p, p + |s|);
  }

  lemma TextComplete(b: seq<byte>, p: nat, t: Text)
    requires |b| <= MAX_INT && Stands(b, p, EncText(t))
    ensures ParseText(b, p) == Parsed(t, p + |EncText(t)|)
  {
    hide Int32, Int32At;
    match t
    case Bare =>
      Int32ReadsBack(b, p, 0);
    case Terminated(chars) =>
      TerminatedComplete(b, p, chars);
  }

  lemma TerminatedComplete(b: seq<byte>, p: nat, chars: seq<byte>)
    requires |b| <= MAX_INT && Stands(b, p, Int32(|chars| + 1) + chars + [0])
    ensures ParseText(b, p) == Parsed(Terminated(chars), p + 4 + |chars| + 1)
  {
    hide Int32, Int32At, ParseText;
    Parts(b, p, Int32(|chars| + 1) + chars, [0]);
    Parts(b, p, Int32(|chars| + 1), chars);
    Int32ReadsBack(b, p, |chars| + 1);
    hide Stands;
    TerminatedBuilt(b, p, chars);
  }

  lemma TerminatedBuilt(b: seq<byte>, p: nat, chars: seq<byte>)
    requires p + 4 + |chars| < |b| && Int32At(b, p) == |chars| + 1
    requires b[p + 4..p + 4 + |chars|] == chars && b[p + 4 + |chars|..p + 4 + |chars| + 1] == [0]
    ensures ParseText(b, p) == Parsed(Terminated(chars), p + 4 + |chars| + 1)
  {
    hide Int32At;
    assert b[p + 4 + |chars|] == b[p + 4 + |chars|..p + 4 + |chars| + 1][0];
  }

  lemma RefComplete(b: seq<byte>, p: nat, ns: Text, oid: seq<byte>)
    requires |b| <= MAX_INT && |oid| == OID_BYTES
    requires Stands(b, p, EncText(ns) + oid) && p + |EncText(ns)| + |oid| < |b|
    ensures ParseRef(b, p) == Parsed(Ref(ns, oid), p + |EncText(ns)| + |oid|)
  {
    Parts(b, p, EncText(ns), oid);
    TextComplete(b, p, ns);
  }

  lemma RegexComplete(b: seq<byte>, p: nat, pattern: seq<byte>, options: seq<byte>)
    requires NoNul(pattern) && NoNul(options)
    requires Stands(b, p, pattern + [0] + options + [0])
    ensures ParseRegex(b, p) == Parsed(Regex(pattern, options), p + |pattern| + |options| + 2)
  {
    hide FindNul, Stands, NoNul;
    var q := p + |pattern| + 1;
    assert Stands(b, p, pattern + [0]) && Stands(b, q, options + [0]) by {
      Regroup(pattern + [0], options, [0]);
      Parts(b, p, pattern + [0], options + [0]);
    }
    CStringFound(b, p, pattern);
    CStringFound(b, q, options);
  }

  lemma BinaryComplete(b: seq<byte>, p: nat, payload: seq<byte>)
    requires |b| <= MAX_INT
    requires Stands(b, p, Int32(|payload| - 1) + payload) && p + 4 + |payload| < |b|
    ensures ParseBinary(b, p) == Parsed(Binary(payload), p + 4 + |payload|)
  {
    hide Int32, Int32At;
    Parts(b, p, Int32(|payload| - 1), payload);
    Int32ReadsBack(b, p, |payload| - 1);
  }

  lemma ScopedBuilt(b: seq<byte>, p: nat, code: Text, q: nat, scope: Elements, end: nat)
    requires p + 4 <= |b| && q <= |b| && ParseText(b, p + 4) == Parsed(code, q)
    requires ParseDoc(b, q) == Parsed(scope, end) && Int32At(b, p) == end - p
    ensures ParseValue(b, CODE_W_SCOPE, p) == Parsed(Scoped(code, scope), end)
  {
  }

  lemma {:induction false} ScopedComplete(b: seq<byte>, p: nat, code: Text, scope: Elements)
    requires |b| <= MAX_INT && WellFormedAll(scope)
    requires Stands(b, p, EncValue(Scoped(code, scope)))
    ensures ParseValue(b, CODE_W_SCOPE, p) == Parsed(Scoped(code, scope), p + |EncValue(Scoped(code, scope))|)
    decreases scope, 3
  {
    hide Int32, Int32At, EncText, EncDoc, ParseValue, ParseText, ParseDoc;
    var inner := EncText(code) + EncDoc(scope);
    Parts(b, p, Int32(|inner| + 4), inner);
    Int32ReadsBack(b, p, |inner| + 4);
    Parts(b, p + 4, EncText(code), EncDoc(scope));
    TextComplete(b, p + 4, code);
    DocComplete(b, p + 4 + |EncText(code)|, scope);
    ScopedBuilt(b, p, code, p + 4 + |EncText(code)|, scope, p + 4 + |inner|);
  }

  lemma {:induction false} ValueComplete(b: seq<byte>, p: nat, v: Value)
    requires |b| <= MAX_INT && WellFormed(v)
    requires Stands(b, p, EncValue(v)) && p + |EncValue(v)| < |b|
    ensures ParseValue(b, Kind(v), p) == Parsed(v, p + |EncValue(v)|)
    decreases v, 0
  {
    hide Int32, Int32At, FindNul, ParseText, ParseRef, ParseRegex, ParseBinary, ParseDoc, EncText, EncDoc;
    match v
    case Fixed(_, _) =>
    case Str(_, text) => TextComplete(b, p, text);
    case Ref(ns, oid) => RefComplete(b, p, ns, oid);
    case Regex(pattern, options) => RegexComplete(b, p, pattern, options);
    case Binary(payload) => BinaryComplete(b, p, payload);
    case Nested(_, doc) => DocComplete(b, p, doc);
    case Scoped(code, scope) => ScopedComplete(b, p, code, scope);
  }

  lemma {:induction false} DocComplete(b: seq<byte>, p: nat, es: Elements)
    requires |b| <= MAX_INT && WellFormedAll(es) && Stands(b, p, EncDoc(es))
    ensures ParseDoc(b, p) == Parsed(es, p + |EncDoc(es)|)
    decreases es, 2
  {
    hide Int32, Int32At;
    var body := EncElements(es) + [EOO];
    Parts(b, p, Int32(|body| + 4), body);
    Int32ReadsBack(b, p, |body| + 4);
    ElementsComplete(b, p + 4, es);
  }

  lemma {:induction false} ElementsComplete(b: seq<byte>, p: nat, es: Elements)
    requires |b| <= MAX_INT && WellFormedAll(es) && Stands(b, p, EncElements(es) + [EOO])
    ensures ParseElements(b, p) == Parsed(es, p + |EncElements(es)| + 1)
    decreases es, 1
  {
    if es.Nil? {
      assert EncElements(es) + [EOO] == [EOO];
      assert b[p] == b[p..p + 1][0];
    } else {
      ConsComplete(b, p, es);
    }
  }

  lemma ConsBuilt(b: seq<byte>, p: nat, n: nat, v: Value, q: nat, rest: Elements, end: nat)
    requires p < n < |b| && b[p] != EOO && FindNul(b, p + 1) == Some(n)
    requires ParseValue(b, b[p], n + 1) == Parsed(v, q) && ParseElements(b, q) == Parsed(rest, end)
    ensures ParseElements(b, p) == Parsed(Cons(b[p + 1..n], v, rest), end)
  {
    hide ParseValue, FindNul;
  }

  lemma {:induction false} ConsComplete(b: seq<byte>, p: nat, es: Elements)
    requires es.Cons? && |b| <= MAX_INT && WellFormedAll(es) && Stands(b, p, EncElements(es) + [EOO])
    ensures ParseElements(b, p) == Parsed(es, p + |EncElements(es)| + 1)
    decreases es, 0
  {
    hide *;
    var Cons(name, v, rest) := es;
    var tail := EncElements(rest) + [EOO];
    var q := p + |EncElement(name, v)|;
    ConsFacts(name, v, rest);
    assert Stands(b, p, EncElement(name, v) + tail) by {
      Regroup(EncElement(name, v), EncElements(rest), [EOO]);
    }
    ElementComplete(b, p, name, v, tail);
    ElementsComplete(b, q, rest);
    ConsBuilt(b, p, p + 1 + |name|, v, q, rest, q + |tail|);
  }

  lemma ConsFacts(name: seq<byte>, v: Value, rest: Elements)
    requires WellFormedAll(Cons(name, v, rest))
    ensures NoNul(name) && WellFormed(v) && WellFormedAll(rest) && Kind(v) != EOO
    ensures EncElements(Cons(name, v, rest)) == EncElement(name, v) + EncElements(rest)
    ensures |EncElement(name, v)| > |name| + 1
  {
  }

  /** The type byte and the name of an element. */
  lemma HeaderFound(b: seq<byte>, p: nat, kind: byte, name: seq<byte>)
    requires Stands(b, p, [kind] + name + [0]) && NoNul(name)
    ensures b[p] == kind && FindNul(b, p + 1) == Some(p + 1 + |name|) && b[p + 1..p + 1 + |name|] == name
  {
    Regroup([kind], name, [0]);
    Parts(b, p, [kind], name + [0]);
    assert b[p] == b[p..p + 1][0];
    CStringFound(b, p + 1, name);
  }

  /** One element, with something after it. */
  lemma {:induction false} ElementComplete(b: seq<byte>, p: nat, name: seq<byte>, v: Value, tail: seq<byte>)
    requires |b| <= MAX_INT && NoNul(name) && WellFormed(v) && |tail| > 0
    requires Stands(b, p, EncElement(name, v) + tail)
    ensures Stands(b, p + |EncElement(name, v)|, tail)
    ensures b[p] == Kind(v) && FindNul(b, p + 1) == Some(p + 1 + |name|) && b[p + 1..p + 1 + |name|] == name
    ensures ParseValue(b, Kind(v), p + |name| + 2) == Parsed(v, p + |EncElement(name, v)|)
    decreases v, 1
  {
    hide EncValue, ParseValue, FindNul, NoNul, WellFormed;
    var header := [Kind(v)] + name + [0];
    Parts(b, p, EncElement(name, v), tail);
    Parts(b, p, header, EncValue(v));
    HeaderFound(b, p, Kind(v), name);
    ValueComplete(b, p + |header|, v);
  }

  // ---------------------------------------------------------------- the grammar, decided

  /** The parser accepts exactly the buffers that hold a document. */
  lemma ParsesExactlyDocuments(b: seq<byte>)
    requires |b| <= MAX_INT
    ensures ParseDoc(b, 0).Parsed? <==> HoldsDocument(b)
  {
    if ParseDoc(b, 0).Parsed? {
      DocSound(b, 0);
    }
    if HoldsDocument(b) {
      var es :| WellFormedAll(es) && EncDoc(es) <= b;
      DocComplete(b, 0, es);
    }
  }

  /** Documents are read back, and no document is a proper prefix of another. */
  lemma EncodingIsPrefixFree(es: Elements, fs: Elements, b: seq<byte>)
    requires |b| <= MAX_INT && WellFormedAll(es) && WellFormedAll(fs)
    requires EncDoc(es) <= b && EncDoc(fs) <= b
    ensures es == fs
  {
    DocComplete(b, 0, es);
    DocComplete(b, 0, fs);
  }
}
