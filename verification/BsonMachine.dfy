/** `validateBSON`: an explicit-stack state machine that reads a buffer element by element. */
module BsonMachine {
  import opened Wrappers
  import opened BsonGrammar
  import opened BsonParse
  import opened BsonValidate

  datatype Machine = Machine(state: ValidationState, frames: seq<Frame>, position: nat)

  const START := Machine(BeginObj, [], 0)

  function Top(frames: seq<Frame>): Frame
    requires |frames| > 0
  {
    frames[|frames| - 1]
  }

  function Pop(frames: seq<Frame>): seq<Frame>
    requires |frames| > 0
  {
    frames[..|frames| - 1]
  }

  /** The shape of the stack: a CodeWScope frame always stands on a frame that is not one. */
  predicate Stacked(state: ValidationState, frames: seq<Frame>) {
    && (forall i | 0 <= i < |frames| && frames[i].IsCodeWithScope() :: i > 0 && !frames[i - 1].IsCodeWithScope())
    && (state in {WithinObj, EndObj, BeginCodeWScope} ==> |frames| > 0 && !Top(frames).IsCodeWithScope())
    && (state.EndCodeWScope? ==> |frames| > 0 && Top(frames).IsCodeWithScope())
  }

  predicate Fits(b: seq<byte>, m: Machine) {
    && |b| <= MAX_INT && Stacked(m.state, m.frames)
    && m.position <= |b| + OID_BYTES
    && (m.state in {BeginObj, BeginCodeWScope} ==> m.position <= |b|)
  }

  // ---------------------------------------------------------------- turns of the loop

  /** The end of a document goes on in the frame below it. */
  function AfterObj(frames: seq<Frame>): ValidationState {
    if frames == [] then Done else if Top(frames).IsCodeWithScope() then EndCodeWScope else WithinObj
  }

  function SizedFrame(b: seq<byte>, p: nat, flag: bool): Frame
    requires p + 4 <= |b| <= MAX_INT
  {
    NewFrame(p, flag).(expectedSize := Int32At(b, p))
  }

  function ElementTurn(b: seq<byte>, frames: seq<Frame>, p: nat): Option<Machine>
    requires |b| <= MAX_INT
  {
    var r := AfterElement(b, p);
    if r.None? then None else Some(Machine(r.value.0, frames, r.value.1))
  }

  /** One turn of the loop; None is the return of an error. Beginning a document falls through to
      its first element. */
  function Turn(b: seq<byte>, m: Machine): Option<Machine>
    requires Fits(b, m) && m.state != Done
  {
    match m.state {
      case BeginObj =>
        if m.position + 4 > |b| then None
        else ElementTurn(b, m.frames + [SizedFrame(b, m.position, false)], m.position + 4)
      case WithinObj => ElementTurn(b, m.frames, m.position)
      case EndObj =>
        if m.position - Top(m.frames).StartPosition() != Top(m.frames).expectedSize then None
        else Some(Machine(AfterObj(Pop(m.frames)), Pop(m.frames), m.position))
      case BeginCodeWScope =>
        if m.position + 4 > |b| then None
        else
          var q := TextEnd(b, m.position + 4);
          if q.None? then None
          else Some(Machine(BeginObj, m.frames + [SizedFrame(b, m.position, true)], q.value))
      case EndCodeWScope =>
        if m.position - Top(m.frames).StartPosition() != Top(m.frames).expectedSize then None
        else Some(Machine(WithinObj, Pop(m.frames), m.position))
    }
  }

  lemma PushStacked(frames: seq<Frame>, f: Frame)
    ensures Pop(frames + [f]) == frames && Top(frames + [f]) == f
    ensures Stacked(BeginObj, frames) && !f.IsCodeWithScope() ==> Stacked(WithinObj, frames + [f])
    ensures Stacked(BeginCodeWScope, frames) && f.IsCodeWithScope() ==> Stacked(BeginObj, frames + [f])
    ensures Stacked(BeginCodeWScope, frames) && f.IsCodeWithScope() ==> Stacked(EndCodeWScope, frames + [f])
  {
    hide Low, High;
  }

  lemma SameBits(f: Frame, size: int)
    ensures var g := f.(expectedSize := size);
      g.expectedSize == size && g.StartPosition() == f.StartPosition() && g.IsCodeWithScope() == f.IsCodeWithScope()
  {
  }

  /** What pushing a frame gives, whatever word it is packed in. */
  lemma PushFrame(b: seq<byte>, frames: seq<Frame>, p: nat, flag: bool) returns (pushed: seq<Frame>)
    requires p + 4 <= |b| <= MAX_INT
    ensures pushed == frames + [SizedFrame(b, p, flag)]
    ensures |pushed| == |frames| + 1 && Pop(pushed) == frames
    ensures Top(pushed).StartPosition() == p && Top(pushed).expectedSize == Int32At(b, p)
    ensures Top(pushed).IsCodeWithScope() == flag
    ensures Stacked(BeginObj, frames) && !flag ==> Stacked(WithinObj, pushed)
    ensures Stacked(BeginCodeWScope, frames) && flag ==> Stacked(BeginObj, pushed) && Stacked(EndCodeWScope, pushed)
  {
    var f := SizedFrame(b, p, flag);
    assert f == NewFrame(p, flag).(expectedSize := Int32At(b, p));
    hide *;
    pushed := frames + [f];
    SameBits(NewFrame(p, flag), Int32At(b, p));
    PushStacked(frames, f);
  }

  /** A CodeWScope frame is never the bottom frame, so the frame below it is there to go on in. */
  lemma PopStacked(state: ValidationState, frames: seq<Frame>)
    requires state in {EndObj, EndCodeWScope} && Stacked(state, frames)
    ensures |frames| > 0 && (state == EndCodeWScope ==> |frames| > 1)
    ensures Stacked(if state == EndObj then AfterObj(Pop(frames)) else WithinObj, Pop(frames))
  {
    hide Low, High;
  }

  lemma ElementFits(b: seq<byte>, frames: seq<Frame>, p: nat)
    requires |b| <= MAX_INT && Stacked(WithinObj, frames)
    ensures ElementTurn(b, frames, p).Some? ==> Fits(b, ElementTurn(b, frames, p).value)
  {
    hide Low, High;
    hide AfterElement;
  }

  /** Every turn leaves the machine in shape, negative length prefixes or not. */
  lemma TurnFits(b: seq<byte>, m: Machine)
    requires Fits(b, m) && m.state != Done
    ensures Turn(b, m).Some? ==> Fits(b, Turn(b, m).value)
  {
    hide TextEnd, Int32At;
    match m.state {
      case BeginObj =>
        if m.position + 4 <= |b| {
          var pushed := PushFrame(b, m.frames, m.position, false);
          hide SizedFrame, Stacked;
          ElementFits(b, pushed, m.position + 4);
        }
      case WithinObj =>
        ElementFits(b, m.frames, m.position);
      case BeginCodeWScope =>
        if m.position + 4 <= |b| {
          var pushed := PushFrame(b, m.frames, m.position, true);
          hide SizedFrame, Stacked;
        }
      case _ =>
        PopStacked(m.state, m.frames);
        hide Stacked;
    }
  }

  /** Where the machine is after some turns; None once it has returned an error. */
  function Reached(b: seq<byte>, turns: nat): (r: Option<Machine>)
    requires |b| <= MAX_INT
    ensures r.Some? ==> Fits(b, r.value)
  {
    if turns == 0 then Some(START)
    else
      var m := Reached(b, turns - 1);
      if m.None? || m.value.state == Done then m
      else
        TurnFits(b, m.value);
        Turn(b, m.value)
  }

  /** What the machine has returned after so many turns, if anything. */
  function Returned(b: seq<byte>, turns: nat): Option<Status>
    requires |b| <= MAX_INT
  {
    var m := Reached(b, turns);
    if m.None? then Some(InvalidBSON) else if m.value.state == Done then Some(OK) else None
  }

  // ---------------------------------------------------------------- the machine's fate

  /** What the grammar makes of the rest of a run. */
  datatype Fate = Accepts | Rejects | MeetsNegative

  function FateOf<T>(r: Parse<T>): Fate {
    match r
    case Parsed(_, _) => Accepts
    case Malformed => Rejects
    case NegativeLength => MeetsNegative
  }

  function FateAt(b: seq<byte>, state: ValidationState, frames: seq<Frame>, p: nat): Fate
    requires Stacked(state, frames)
    decreases |frames|, Rank(state)
  {
    match state {
      case Done => Accepts
      case EndObj =>
        if p - Top(frames).StartPosition() != Top(frames).expectedSize then Rejects
        else if |frames| == 1 then Accepts
        else if Top(Pop(frames)).IsCodeWithScope() then FateAt(b, EndCodeWScope, Pop(frames), p)
        else FateAt(b, WithinObj, Pop(frames), p)
      case EndCodeWScope =>
        if p - Top(frames).StartPosition() != Top(frames).expectedSize then Rejects
        else FateAt(b, WithinObj, Pop(frames), p)
      case WithinObj =>
        if p > |b| then Rejects
        else
          var r := ParseElements(b, p);
          if r.Parsed? then FateAt(b, EndObj, frames, r.end) else FateOf(r)
      case BeginObj =>
        if p > |b| then Rejects
        else
          var r := ParseDoc(b, p);
          if !r.Parsed? || frames == [] then FateOf(r)
          else if Top(frames).IsCodeWithScope() then FateAt(b, EndCodeWScope, frames, r.end)
          else FateAt(b, WithinObj, frames, r.end)
      case BeginCodeWScope =>
        if p > |b| then Rejects
        else
          var r := ParseValue(b, CODE_W_SCOPE, p);
          if r.Parsed? then FateAt(b, WithinObj, frames, r.end) else FateOf(r)
    }
  }

  function Rank(state: ValidationState): nat {
    match state {
      case BeginCodeWScope => 3
      case BeginObj => 2
      case WithinObj => 1
      case _ => 0
    }
  }

  /** The element at p has a negative length prefix. */
  predicate ElementMeets(b: seq<byte>, p: nat) {
    p < |b| && b[p] != EOO && FindNul(b, p + 1).Some? && NegativePrefix(b, b[p], FindNul(b, p + 1).value + 1)
  }

  /** The machine's next turn reads a negative length prefix. */
  predicate Meets(b: seq<byte>, m: Machine) {
    match m.state
    case BeginObj => m.position + 4 <= |b| && ElementMeets(b, m.position + 4)
    case WithinObj => ElementMeets(b, m.position)
    case BeginCodeWScope => m.position + 8 <= |b| && Int32At(b, m.position + 4) < 0
    case _ => false
  }

  function FateOfMachine(b: seq<byte>, m: Machine): Fate
    requires Fits(b, m)
  {
    FateAt(b, m.state, m.frames, m.position)
  }

  /** Reading past one element leaves the fate to the elements after it. */
  lemma PastElement(b: seq<byte>, frames: seq<Frame>, p: nat)
    requires Stacked(WithinObj, frames) && p < |b| && b[p] != EOO && FindNul(b, p + 1).Some?
    ensures var v := ParseValue(b, b[p], FindNul(b, p + 1).value + 1);
            FateAt(b, WithinObj, frames, p) == if v.Parsed? then FateAt(b, WithinObj, frames, v.end) else FateOf(v)
  {
  }

  lemma EndOfBuffer(b: seq<byte>, frames: seq<Frame>, p: nat)
    requires Stacked(WithinObj, frames) && p >= |b|
    ensures FateAt(b, WithinObj, frames, p) == Rejects
  {
  }

  lemma FateOfEnd(b: seq<byte>, state: ValidationState, frames: seq<Frame>, p: nat)
    requires state in {EndObj, EndCodeWScope} && Stacked(state, frames)
    ensures |frames| > 0
    ensures var next := if state == EndObj then AfterObj(Pop(frames)) else WithinObj;
            && Stacked(next, Pop(frames))
            && FateAt(b, state, frames, p) ==
               if p - Top(frames).StartPosition() != Top(frames).expectedSize then Rejects
               else FateAt(b, next, Pop(frames), p)
  {
  }

  /** A document at p: what its reading leads to. */
  lemma FateOfDoc(b: seq<byte>, frames: seq<Frame>, p: nat)
    requires Stacked(BeginObj, frames) && p <= |b|
    ensures Stacked(AfterObj(frames), frames)
    ensures var r := ParseDoc(b, p);
      FateAt(b, BeginObj, frames, p) == if r.Parsed? then FateAt(b, AfterObj(frames), frames, r.end) else FateOf(r)
  {
  }

  lemma FateOfElements(b: seq<byte>, frames: seq<Frame>, p: nat)
    requires Stacked(WithinObj, frames) && p <= |b|
    ensures Stacked(EndObj, frames)
    ensures var r := ParseElements(b, p);
      FateAt(b, WithinObj, frames, p) == if r.Parsed? then FateAt(b, EndObj, frames, r.end) else FateOf(r)
  {
  }

  lemma FateOfScoped(b: seq<byte>, frames: seq<Frame>, p: nat)
    requires Stacked(BeginCodeWScope, frames) && p <= |b|
    ensures Stacked(WithinObj, frames)
    ensures var r := ParseValue(b, CODE_W_SCOPE, p);
      FateAt(b, BeginCodeWScope, frames, p) == if r.Parsed? then FateAt(b, WithinObj, frames, r.end) else FateOf(r)
  {
    hide ParseDoc, ParseElements, ParseValue;
  }

  /** An element with a document inside: the fate is that of the state that begins it. */
  lemma NestedKeepsFate(b: seq<byte>, frames: seq<Frame>, p: nat)
    requires Stacked(WithinObj, frames) && p < |b| && b[p] != EOO && FindNul(b, p + 1).Some?
    requires IsNested(b[p]) || b[p] == CODE_W_SCOPE
    ensures var next := if IsNested(b[p]) then BeginObj else BeginCodeWScope;
      Stacked(next, frames) && FateAt(b, next, frames, FindNul(b, p + 1).value + 1) == FateAt(b, WithinObj, frames, p)
  {
    PastElement(b, frames, p);
    hide ParseElements, FindNul, ParseText, Int32At, Low, High;
  }

  lemma PlainKeepsFate(b: seq<byte>, frames: seq<Frame>, p: nat, q: nat)
    requires |b| <= MAX_INT && Stacked(WithinObj, frames)
    requires p < |b| && b[p] != EOO && FindNul(b, p + 1) == Some(q - 1) && q > 0
    requires !IsNested(b[p]) && b[p] != CODE_W_SCOPE
    ensures NegativePrefix(b, b[p], q) ==> FateAt(b, WithinObj, frames, p) == MeetsNegative
    ensures !NegativePrefix(b, b[p], q) ==>
      match PlainEnd(b, b[p], q)
      case None => FateAt(b, WithinObj, frames, p) == Rejects
      case Some(r) => r >= q && FateAt(b, WithinObj, frames, r) == FateAt(b, WithinObj, frames, p)
  {
    hide FindNul, PlainEnd, NegativePrefix, ParseValue, ParseElements, FateAt, Stacked;
    PastElement(b, frames, p);
    PlainAgrees(b, b[p], q);
    if !NegativePrefix(b, b[p], q) && PlainEnd(b, b[p], q).Some? {
      PlainAdvances(b, b[p], q);
      if PlainEnd(b, b[p], q).value >= |b| {
        EndOfBuffer(b, frames, PlainEnd(b, b[p], q).value);
      }
    }
  }

  /** One element: reading it leaves the fate as it is, unless its prefix is negative. */
  lemma ElementKeepsFate(b: seq<byte>, frames: seq<Frame>, p: nat)
    requires |b| <= MAX_INT && Stacked(WithinObj, frames)
    ensures ElementMeets(b, p) ==> FateAt(b, WithinObj, frames, p) == MeetsNegative
    ensures !ElementMeets(b, p) ==>
      match AfterElement(b, p)
      case None => FateAt(b, WithinObj, frames, p) == Rejects
      case Some(r) => r.1 > p && Stacked(r.0, frames) && FateAt(b, r.0, frames, r.1) == FateAt(b, WithinObj, frames, p)
  {
    hide FindNul, PlainEnd, ParseValue;
    if p < |b| && b[p] != EOO && FindNul(b, p + 1).Some? {
      hide ParseElements, FateAt, Stacked;
      if IsNested(b[p]) || b[p] == CODE_W_SCOPE {
        NestedKeepsFate(b, frames, p);
      } else {
        PlainKeepsFate(b, frames, p, FindNul(b, p + 1).value + 1);
      }
    }
  }

  lemma PlainAdvances(b: seq<byte>, kind: byte, p: nat)
    requires p <= |b| <= MAX_INT && PlainEnd(b, kind, p).Some? && !NegativePrefix(b, kind, p)
    ensures PlainEnd(b, kind, p).value >= p
  {
  }

  lemma DocParts(b: seq<byte>, p: nat)
    requires p + 4 <= |b|
    ensures var doc, r := ParseDoc(b, p), ParseElements(b, p + 4);
      if r.Parsed? then
        if r.end - p == Int32At(b, p) then doc == Parsed(r.value, r.end) else !doc.Parsed? && FateOf(doc) == Rejects
      else !doc.Parsed? && FateOf(doc) == FateOf(r)
  {
    hide ParseElements, Int32At;
  }

  /** Beginning a document moves on to its elements. */
  lemma BeginObjKeepsFate(b: seq<byte>, frames: seq<Frame>, p: nat) returns (pushed: seq<Frame>)
    requires |b| <= MAX_INT && Stacked(BeginObj, frames) && p + 4 <= |b|
    ensures pushed == frames + [SizedFrame(b, p, false)] && |pushed| == |frames| + 1
    ensures Stacked(WithinObj, pushed) && FateAt(b, WithinObj, pushed, p + 4) == FateAt(b, BeginObj, frames, p)
  {
    hide *;
    pushed := PushFrame(b, frames, p, false);
    FateOfDoc(b, frames, p);
    FateOfElements(b, pushed, p + 4);
    DocParts(b, p);
    var r := ParseElements(b, p + 4);
    if r.Parsed? {
      FateOfEnd(b, EndObj, pushed, r.end);
    }
  }

  lemma ScopedFate(b: seq<byte>, p: nat)
    requires p + 4 <= |b|
    ensures var all, code := ParseValue(b, CODE_W_SCOPE, p), ParseText(b, p + 4);
      if code.Parsed? then
        var scope := ParseDoc(b, code.end);
        if scope.Parsed? then
          if scope.end - p == Int32At(b, p) then all == Parsed(Scoped(code.value, scope.value), scope.end)
          else !all.Parsed? && FateOf(all) == Rejects
        else !all.Parsed? && FateOf(all) == FateOf(scope)
      else !all.Parsed? && FateOf(all) == FateOf(code)
  {
    hide ParseText, ParseDoc, Int32At;
  }

  lemma AfterScope(frames: seq<Frame>)
    requires |frames| > 0 && Top(frames).IsCodeWithScope()
    ensures AfterObj(frames) == EndCodeWScope
  {
  }

  /** Beginning a CodeWScope reads its code and moves on to its scope. */
  lemma BeginCodeKeepsFate(b: seq<byte>, frames: seq<Frame>, p: nat) returns (pushed: seq<Frame>)
    requires |b| <= MAX_INT && Stacked(BeginCodeWScope, frames) && p + 4 <= |b|
    ensures pushed == frames + [SizedFrame(b, p, true)] && |pushed| == |frames| + 1 && Stacked(BeginObj, pushed)
    ensures var code := ParseText(b, p + 4);
      FateAt(b, BeginCodeWScope, frames, p) ==
      if code.Parsed? then FateAt(b, BeginObj, pushed, code.end) else FateOf(code)
  {
    hide *;
    pushed := PushFrame(b, frames, p, true);
    FateOfScoped(b, frames, p);
    ScopedFate(b, p);
    var code := ParseText(b, p + 4);
    if code.Parsed? {
      FateOfDoc(b, pushed, code.end);
      AfterScope(pushed);
      var scope := ParseDoc(b, code.end);
      if scope.Parsed? {
        FateOfEnd(b, EndCodeWScope, pushed, scope.end);
      }
    }
  }

  // ---------------------------------------------------------------- runs

  /** Bytes to read count twice, frames to pop once. */
  function Measure(b: seq<byte>, m: Machine): nat
    requires Fits(b, m)
  {
    2 * (|b| + OID_BYTES - m.position) + |m.frames|
  }

  ghost predicate Onward(b: seq<byte>, m: Machine, next: Machine)
    requires Fits(b, m)
  {
    Fits(b, next) && FateOfMachine(b, next) == FateOfMachine(b, m) && Measure(b, next) < Measure(b, m)
  }

  lemma ElementOnward(b: seq<byte>, frames: seq<Frame>, p: nat)
    requires |b| <= MAX_INT && Stacked(WithinObj, frames) && p <= |b| + OID_BYTES
    ensures ElementMeets(b, p) ==> FateAt(b, WithinObj, frames, p) == MeetsNegative
    ensures !ElementMeets(b, p) ==>
      match ElementTurn(b, frames, p)
      case None => FateAt(b, WithinObj, frames, p) == Rejects
      case Some(m) => m.position > p && m.frames == frames && Onward(b, Machine(WithinObj, frames, p), m)
  {
    ElementKeepsFate(b, frames, p);
    ElementFits(b, frames, p);
    hide FateAt, AfterElement, ElementMeets, Stacked;
  }

  /** What a turn does unless it meets a negative prefix: it returns the error the grammar asks for,
      or goes on towards the same fate, with less left to do. */
  ghost predicate TurnIsRight(b: seq<byte>, m: Machine)
    requires Fits(b, m) && m.state != Done
  {
    if Meets(b, m) then FateOfMachine(b, m) == MeetsNegative
    else
      match Turn(b, m)
      case None => FateOfMachine(b, m) == Rejects
      case Some(next) => Onward(b, m, next)
  }

  lemma BeginObjTurn(b: seq<byte>, m: Machine)
    requires Fits(b, m) && m.state == BeginObj
    ensures TurnIsRight(b, m)
  {
    var p, frames := m.position, m.frames;
    if p + 4 <= |b| {
      var pushed := BeginObjKeepsFate(b, frames, p);
      ElementOnward(b, pushed, p + 4);
      hide FateAt, Stacked, ElementMeets, ElementTurn, SizedFrame;
    }
  }

  lemma ShortCode(b: seq<byte>, frames: seq<Frame>, p: nat)
    requires Stacked(BeginCodeWScope, frames) && p <= |b| < p + 4
    ensures FateAt(b, BeginCodeWScope, frames, p) == Rejects
  {
  }

  lemma BeginCodeTurn(b: seq<byte>, m: Machine)
    requires Fits(b, m) && m.state == BeginCodeWScope
    ensures TurnIsRight(b, m)
  {
    hide FateAt, Stacked, SizedFrame, ParseText, TextEnd, Int32At, FateOf, Low, High;
    var p, frames := m.position, m.frames;
    TurnFits(b, m);
    if p + 4 <= |b| {
      var pushed := BeginCodeKeepsFate(b, frames, p);
      TextAgrees(b, p + 4);
      TextFate(b, p + 4);
    } else {
      ShortCode(b, frames, p);
    }
  }

  lemma TextFate(b: seq<byte>, p: nat)
    requires p <= |b|
    ensures var r := ParseText(b, p);
      (r.Malformed? ==> FateOf(r) == Rejects) && (r.NegativeLength? ==> FateOf(r) == MeetsNegative)
  {
  }

  lemma EndTurn(b: seq<byte>, m: Machine)
    requires Fits(b, m) && m.state in {EndObj, EndCodeWScope}
    ensures TurnIsRight(b, m)
  {
    TurnFits(b, m);
    FateOfEnd(b, m.state, m.frames, m.position);
    hide FateAt, Stacked;
  }

  lemma EveryTurnIsRight(b: seq<byte>, m: Machine)
    requires Fits(b, m) && m.state != Done
    ensures TurnIsRight(b, m)
  {
    if m.state == BeginObj {
      BeginObjTurn(b, m);
    } else if m.state == BeginCodeWScope {
      BeginCodeTurn(b, m);
    } else if m.state == WithinObj {
      ElementOnward(b, m.frames, m.position);
      hide FateAt, Stacked, ElementMeets, ElementTurn;
    } else {
      EndTurn(b, m);
    }
  }

  /** Within the first turns the machine meets a negative prefix. */
  ghost predicate MeetsWithin(b: seq<byte>, turns: nat)
    requires |b| <= MAX_INT
  {
    exists k: nat | k < turns :: MeetsAt(b, k)
  }

  predicate MeetsAt(b: seq<byte>, k: nat)
    requires |b| <= MAX_INT
  {
    var m := Reached(b, k);
    m.Some? && m.value.state != Done && Meets(b, m.value)
  }

  lemma StartFate(b: seq<byte>)
    requires |b| <= MAX_INT
    ensures Fits(b, START) && FateOfMachine(b, START) == FateOf(ParseDoc(b, 0)) && Measure(b, START) == 2 * (|b| + OID_BYTES)
  {
  }

  /** The number of turns in which the machine is done with any buffer that has no negative prefix
      on its way. */
  function TurnsFor(b: seq<byte>): nat {
    2 * (|b| + OID_BYTES) + 1
  }

  /** Until it meets a negative prefix, the machine is where the grammar sends it. */
  lemma {:induction false} RunIsRight(b: seq<byte>, turns: nat)
    requires |b| <= MAX_INT && !MeetsWithin(b, turns)
    ensures
      var fate := FateOf(ParseDoc(b, 0));
      match Reached(b, turns)
      case None => fate == Rejects
      case Some(m) =>
        && FateOfMachine(b, m) == fate
        && (m.state != Done ==> Measure(b, m) + turns <= 2 * (|b| + OID_BYTES))
  {
    hide FateAt, Fits, Meets, Turn, FateOfMachine, Measure, FateOf;
    StartFate(b);
    if turns > 0 {
      assert !MeetsWithin(b, turns - 1) && !MeetsAt(b, turns - 1);
      RunIsRight(b, turns - 1);
      var m := Reached(b, turns - 1);
      if m.Some? && m.value.state != Done {
        EveryTurnIsRight(b, m.value);
      }
    }
  }

  /** The machine meets a negative prefix exactly if the grammar does. */
  lemma MeetsExactly(b: seq<byte>)
    requires |b| <= MAX_INT
    ensures ParseDoc(b, 0).NegativeLength? <==> exists k :: MeetsAt(b, k)
  {
    if k :| MeetsAt(b, k) {
      FirstMeets(b, k);
    } else {
      RunIsRight(b, TurnsFor(b));
    }
  }

  lemma {:induction false} FirstMeets(b: seq<byte>, k: nat)
    requires |b| <= MAX_INT && MeetsAt(b, k)
    ensures ParseDoc(b, 0).NegativeLength?
  {
    if MeetsWithin(b, k) {
      var j: nat :| j < k && MeetsAt(b, j);
      FirstMeets(b, j);
    } else {
      RunIsRight(b, k);
      EveryTurnIsRight(b, Reached(b, k).value);
    }
  }

  /** A buffer without a negative length prefix on its way: the machine returns in at most 2n + 25
      turns, OK exactly if the buffer holds a document. */
  lemma DecidesDocuments(b: seq<byte>, turns: nat)
    requires |b| <= MAX_INT && !ParseDoc(b, 0).NegativeLength? && turns >= TurnsFor(b)
    ensures Returned(b, turns) == Some(if HoldsDocument(b) then OK else InvalidBSON)
  {
    if MeetsWithin(b, turns) {
      MeetsExactly(b);
    }
    RunIsRight(b, turns);
    ParsesExactlyDocuments(b);
  }

  // ---------------------------------------------------------------- negative prefixes

  /** A string whose prefix -6 moves the position from 10 to 3 and so, past the NUL there, back to
      the element itself. */
  const LOOPING: seq<byte> := [11, 0, 0, 0, STRING, 0, 250, 255, 255, 255, 0]

  /** Binary data, and in front of the end a string whose prefix -7 moves the position into them,
      where an EOO stands at the length the buffer claims. */
  const MISREAD: seq<byte> :=
    [13, 0, 0, 0, BIN_DATA, 0, 2, 0, 0, 0, 0, 0, 0, STRING, 0, 249, 255, 255, 255]

  lemma NulNext(b: seq<byte>, p: nat)
    requires p < |b| && b[p] == 0
    ensures FindNul(b, p) == Some(p)
  {
  }

  /** The string of the first buffer ends where its element begins. */
  lemma LoopingElement()
    ensures AfterElement(LOOPING, 4) == Some((WithinObj, 4)) && ElementMeets(LOOPING, 4)
  {
    NulNext(LOOPING, 5);
    hide FindNul;
    assert Int32At(LOOPING, 6) == -6;
    assert TextEnd(LOOPING, 6) == Some(4);
  }

  /** On the first buffer the machine never returns: from its first turn on it comes back to where
      it was, the same frames included. */
  lemma {:induction false} LoopsForever(turns: nat)
    ensures Returned(LOOPING, turns) == None
    ensures turns > 0 ==> Reached(LOOPING, turns) == Reached(LOOPING, 1) && MeetsAt(LOOPING, turns)
    ensures turns > 0 ==> Reached(LOOPING, turns).value.state == WithinObj && Reached(LOOPING, turns).value.position == 4
  {
    LoopingElement();
    hide AfterElement, ElementMeets, Int32At, NewFrame;
    if turns == 1 {
      assert Reached(LOOPING, 0) == Some(START);
    } else if turns > 1 {
      LoopsForever(turns - 1);
    }
  }

  lemma MisreadBinary()
    ensures AfterElement(MISREAD, 4) == Some((WithinObj, 13))
  {
    NulNext(MISREAD, 5);
    hide FindNul;
    assert Int32At(MISREAD, 6) == 2;
  }

  lemma MisreadString()
    ensures AfterElement(MISREAD, 13) == Some((WithinObj, 12)) && ElementMeets(MISREAD, 13)
  {
    NulNext(MISREAD, 14);
    hide FindNul;
    assert Int32At(MISREAD, 15) == -7;
    assert TextEnd(MISREAD, 15) == Some(12);
  }

  /** The second buffer is accepted and holds no document. */
  lemma AcceptsNoDocument()
    ensures Returned(MISREAD, 4) == Some(OK) && !HoldsDocument(MISREAD)
  {
    MisreadBinary();
    MisreadString();
    assert AfterElement(MISREAD, 12) == Some((EndObj, 13)) && Int32At(MISREAD, 0) == 13;
    var pushed := PushFrame(MISREAD, [], 0, false);
    MisreadRun(pushed);
    MeetsExactly(MISREAD);
    ParsesExactlyDocuments(MISREAD);
  }

  lemma MisreadRun(pushed: seq<Frame>)
    requires AfterElement(MISREAD, 4) == Some((WithinObj, 13)) && AfterElement(MISREAD, 13) == Some((WithinObj, 12))
    requires AfterElement(MISREAD, 12) == Some((EndObj, 13)) && ElementMeets(MISREAD, 13)
    requires pushed == [] + [SizedFrame(MISREAD, 0, false)] && Pop(pushed) == []
    requires Top(pushed).StartPosition() == 0 && Top(pushed).expectedSize == 13
    ensures Returned(MISREAD, 4) == Some(OK) && MeetsAt(MISREAD, 1)
  {
    hide AfterElement, ElementMeets, SizedFrame, Low, High;
    assert Reached(MISREAD, 0) == Some(START);
    assert Reached(MISREAD, 1) == Some(Machine(WithinObj, pushed, 13));
    assert Reached(MISREAD, 2) == Some(Machine(WithinObj, pushed, 12));
    assert Reached(MISREAD, 3) == Some(Machine(EndObj, pushed, 13));
    assert Reached(MISREAD, 4) == Some(Machine(Done, [], 13));
  }

  // ---------------------------------------------------------------- the code

  lemma {:induction false} Stays(b: seq<byte>, turns: nat, more: nat)
    requires |b| <= MAX_INT && turns <= more && Returned(b, turns).Some?
    ensures Returned(b, more) == Returned(b, turns)
    decreases more
  {
    if turns < more {
      Stays(b, turns, more - 1);
    }
  }

  lemma Watched(b: seq<byte>, turn: nat)
    requires |b| <= MAX_INT && Reached(b, turn).Some?
    ensures Returned(b, turn) == if Reached(b, turn).value.state == Done then Some(OK) else None
  {
  }

  lemma NextTurn(b: seq<byte>, turn: nat, m: Machine)
    requires |b| <= MAX_INT && Reached(b, turn) == Some(m) && m.state != Done
    ensures Fits(b, m) && Reached(b, turn + 1) == Turn(b, m)
    ensures Turn(b, m) == None ==> Returned(b, turn + 1) == Some(InvalidBSON)
    ensures m.state in {BeginObj, BeginCodeWScope} ==> m.position <= |b|
    ensures m.state in {EndObj, EndCodeWScope} ==>
      |m.frames| > 0 && (m.state == EndCodeWScope ==> |m.frames| > 1)
  {
    if m.state in {EndObj, EndCodeWScope} {
      PopStacked(m.state, m.frames);
    }
  }

  /** `validateBSONIterative`, watched for a number of turns of its loop; None if it is still
      running. Its "unnested CodeWScope" error cannot occur. */
  method ValidateBSONIterative(buffer: Buffer, turns: nat) returns (status: Option<Status>)
    requires |buffer.data| <= MAX_INT && buffer.position == 0
    modifies buffer
    ensures status == Returned(buffer.data, turns)
  {
    hide AfterElement, TextEnd, Int32At, NewFrame, Low, High, Fits, Stacked, Returned;
    var frames: seq<Frame> := [];
    var state := BeginObj;
    var turn := 0;
    assert Reached(buffer.data, 0) == Some(START);
    hide Reached;
    while state != Done && turn < turns
      invariant buffer.Valid() && turn <= turns
      invariant Reached(buffer.data, turn) == Some(Machine(state, frames, buffer.position))
    {
      var start := buffer.position;
      NextTurn(buffer.data, turn, Machine(state, frames, start));
      if state == BeginObj || state == WithinObj {
        var ok := true;
        if state == BeginObj {
          var size;
          ok, size := buffer.ReadInt();
          if ok {
            frames := frames + [NewFrame(start, false).(expectedSize := size)];
            state := WithinObj;
          }
        }
        var elementStatus := InvalidBSON;
        if ok {
          elementStatus, state := ValidateElementInfo(buffer);
        }
        if elementStatus != OK {
          Stays(buffer.data, turn + 1, turns);
          return Some(InvalidBSON);
        }
      } else if state == EndObj {
        if start - Top(frames).StartPosition() != Top(frames).expectedSize {
          Stays(buffer.data, turn + 1, turns);
          return Some(InvalidBSON);
        }
        frames := Pop(frames);
        if |frames| == 0 {
          state := Done;
        } else if Top(frames).IsCodeWithScope() {
          state := EndCodeWScope;
        } else {
          state := WithinObj;
        }
      } else if state == BeginCodeWScope {
        var ok, size := buffer.ReadInt();
        var textStatus := InvalidBSON;
        if ok {
          frames := frames + [NewFrame(start, true).(expectedSize := size)];
          textStatus := buffer.ReadUTF8String();
        }
        if textStatus != OK {
          Stays(buffer.data, turn + 1, turns);
          return Some(InvalidBSON);
        }
        state := BeginObj;
      } else {
        if start - Top(frames).StartPosition() != Top(frames).expectedSize {
          Stays(buffer.data, turn + 1, turns);
          return Some(InvalidBSON);
        }
        frames := Pop(frames);
        // "unnested CodeWScope" is the error for an empty stack here.
        assert |frames| > 0;
        state := WithinObj;
      }
      turn := turn + 1;
    }
    Watched(buffer.data, turn);
    if state != Done {
      return None;
    }
    Stays(buffer.data, turn, turns);
    return Some(OK);
  }

  /** `validateBSON`. Unless the buffer has a negative length prefix on its way, it returns, and
      accepts exactly the buffers that hold a document, whatever follows it. */
  method ValidateBSON(b: seq<byte>, turns: nat) returns (status: Option<Status>)
    requires |b| <= MAX_INT
    ensures |b| >= 5 ==> status == Returned(b, turns)
    ensures |b| < 5 ==> status == Some(InvalidBSON)
    ensures !ParseDoc(b, 0).NegativeLength? && turns >= TurnsFor(b) ==>
      status == Some(if HoldsDocument(b) then OK else InvalidBSON)
  {
    if |b| < 5 {
      ParsesExactlyDocuments(b);
      return Some(InvalidBSON);
    }
    var buffer := new Buffer(b);
    status := ValidateBSONIterative(buffer, turns);
    if !ParseDoc(b, 0).NegativeLength? && turns >= TurnsFor(b) {
      DecidesDocuments(b, turns);
    }
  }
}
