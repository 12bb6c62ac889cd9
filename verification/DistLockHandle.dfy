/** `dist_lock_try`: an object that unlocks on destruction what its construction acquired, and that
    hands this duty over when it is copied or assigned. */
module DistLockHandle {
  import opened Wrappers
  import opened DistLock
  import opened DistLockClient

  /** Identifies a `DistributedLock` object. */
  type Lock = nat

  /** What an object is going to unlock. */
  datatype Duty = Duty(lock: Lock, other: LockDoc)

  class DistLockTry {
    var theLock: Option<Lock>
    var got: bool
    var other: Option<LockDoc>

    constructor Default()
      ensures Valid() && Owed() == None
    {
      theLock, got, other := None, false, None;
    }

    /** Tries to acquire without re-entering; an attempt that throws constructs nothing. */
    constructor (lock: Lock, r: TryResult)
      requires r.Got? || r.NotGot?
      ensures Valid() && Owed() == DutyOf(lock, r)
    {
      theLock, got := Some(lock), r.Got?;
      other := if r.Got? then Some(r.other) else r.seen;
    }

    constructor Copy(that: DistLockTry)
      requires that.Valid()
      modifies that
      ensures Valid() && that.Valid()
      ensures Owed() == old(that.Owed()) && that.Owed() == None
    {
      theLock, got, other := that.theLock, that.got, that.other;
      new;
      that.got, that.theLock, that.other := false, None, None;
    }

    ghost predicate Valid()
      reads this
    {
      got ==> theLock.Some? && other.Some?
    }

    /** The unlock that is this object's to make. */
    function Owed(): Option<Duty>
      requires got ==> theLock.Some? && other.Some?
      reads this
    {
      if got then Some(Duty(theLock.value, other.value)) else None
    }

    /** Assignment takes over the duty of the other object. What this object owed is forgotten. */
    method Assign(that: DistLockTry)
      requires Valid() && that.Valid()
      modifies this, that
      ensures Valid() && that.Valid()
      ensures this == that ==> Owed() == old(Owed())
      ensures this != that ==> Owed() == old(that.Owed()) && that.Owed() == None
    {
      if this == that {
        return;
      }
      theLock, got, other := that.theLock, that.got, that.other;
      that.got, that.theLock, that.other := false, None, None;
    }

    /** The destructor: unlocks through the lock object, with its own document. */
    method Destroy(calls: Unlocks)
      requires Valid()
      modifies calls
      ensures calls.log == old(calls.log) + Listed(Owed())
    {
      if got {
        // The original verifies this.
        assert other.Some?;
        calls.Unlock(theLock.value, other.value);
      }
    }
  }

  /** The calls of `unlock` that were made. */
  class Unlocks {
    var log: seq<Duty>

    constructor ()
      ensures log == []
    {
      log := [];
    }

    method Unlock(lock: Lock, other: LockDoc)
      modifies this
      ensures log == old(log) + [Duty(lock, other)]
    {
      log := log + [Duty(lock, other)];
    }
  }

  function DutyOf(lock: Lock, r: TryResult): Option<Duty> {
    if r.Got? then Some(Duty(lock, r.other)) else None
  }

  function Listed(o: Option<Duty>): seq<Duty> {
    if o.Some? then [o.value] else []
  }

  // ---------------------------------------------------------------- programs over many objects

  /** One use of such an object: constructing one with the result of an attempt, copying and
      assigning between objects, and destroying one. */
  datatype Use =
    | Acquire(obj: nat, lock: Lock, result: TryResult)
    | CopyTo(from: nat, to: nat)
    | AssignTo(from: nat, to: nat)
    | Discard(obj: nat)

  /** Who owes which unlock, what was unlocked, and what was forgotten. */
  datatype Ledger = Ledger(owed: map<nat, Option<Duty>>, unlocked: multiset<Duty>, forgotten: multiset<Duty>)

  const NOTHING := Ledger(map[], multiset{}, multiset{})

  function One(o: Option<Duty>): multiset<Duty> {
    if o.Some? then multiset{o.value} else multiset{}
  }

  /** A document acquired is a new one, since its ts is; the language sees to the rest. */
  predicate Possible(l: Ledger, u: Use, acquired: set<Duty>) {
    match u
    case Acquire(obj, lock, r) =>
      obj !in l.owed && (r.Got? || r.NotGot?) && (r.Got? ==> Duty(lock, r.other) !in acquired)
    case CopyTo(from, to) => from in l.owed && to !in l.owed
    case AssignTo(from, to) => from in l.owed && to in l.owed
    case Discard(obj) => obj in l.owed
  }

  /** The effect of a use: that of the methods above on the objects it names. */
  function Effect(l: Ledger, u: Use, acquired: set<Duty>): Ledger
    requires Possible(l, u, acquired)
  {
    match u
    case Acquire(obj, lock, r) => l.(owed := l.owed[obj := DutyOf(lock, r)])
    case CopyTo(from, to) => l.(owed := l.owed[to := l.owed[from]][from := None])
    case AssignTo(from, to) =>
      if from == to then l
      else l.(owed := l.owed[to := l.owed[from]][from := None], forgotten := l.forgotten + One(l.owed[to]))
    case Discard(obj) => l.(owed := l.owed - {obj}, unlocked := l.unlocked + One(l.owed[obj]))
  }

  function Acquires(u: Use): set<Duty> {
    if u.Acquire? && u.result.Got? then {Duty(u.lock, u.result.other)} else {}
  }

  /** A program: each use possible in its turn. */
  ghost predicate Runs(l: Ledger, acquired: set<Duty>, uses: seq<Use>)
    decreases |uses|
  {
    uses == [] ||
    (Possible(l, uses[0], acquired) && Runs(Effect(l, uses[0], acquired), acquired + Acquires(uses[0]), uses[1..]))
  }

  ghost function After(l: Ledger, acquired: set<Duty>, uses: seq<Use>): (Ledger, set<Duty>)
    requires Runs(l, acquired, uses)
    decreases |uses|
  {
    if uses == [] then (l, acquired)
    else After(Effect(l, uses[0], acquired), acquired + Acquires(uses[0]), uses[1..])
  }

  ghost predicate Owes(l: Ledger, obj: nat, x: Duty) {
    obj in l.owed && l.owed[obj] == Some(x)
  }

  ghost predicate Owed(l: Ledger, x: Duty) {
    exists obj :: Owes(l, obj, x)
  }

  /** How often an acquisition is accounted for. */
  ghost function Times(l: Ledger, x: Duty): nat {
    l.unlocked[x] + l.forgotten[x] + if Owed(l, x) then 1 else 0
  }

  /** At most one object owes an unlock, and every acquisition is in exactly one place, once. */
  ghost predicate Settled(l: Ledger, acquired: set<Duty>) {
    && (forall o, p, x | Owes(l, o, x) && Owes(l, p, x) :: o == p)
    && forall x :: Times(l, x) == if x in acquired then 1 else 0
  }

  lemma EffectOwes(l: Ledger, u: Use, acquired: set<Duty>, o: nat, x: Duty)
    requires Possible(l, u, acquired)
    ensures Owes(Effect(l, u, acquired), o, x) <==>
      match u
      case Acquire(obj, lock, r) => if o == obj then DutyOf(lock, r) == Some(x) else Owes(l, o, x)
      case CopyTo(from, to) => if o == to then Owes(l, from, x) else o != from && Owes(l, o, x)
      case AssignTo(from, to) =>
        if from == to then Owes(l, o, x)
        else if o == to then Owes(l, from, x) else o != from && Owes(l, o, x)
      case Discard(obj) => o != obj && Owes(l, o, x)
  {
  }

  lemma EffectSettled(l: Ledger, u: Use, acquired: set<Duty>)
    requires Settled(l, acquired) && Possible(l, u, acquired)
    ensures Settled(Effect(l, u, acquired), acquired + Acquires(u))
  {
    var k := Effect(l, u, acquired);
    forall o, p, x | Owes(k, o, x) && Owes(k, p, x) ensures o == p {
      EffectOwes(l, u, acquired, o, x);
      EffectOwes(l, u, acquired, p, x);
      assert Times(l, x) == if x in acquired then 1 else 0;
    }
    forall x: Duty ensures Times(k, x) == if x in acquired + Acquires(u) then 1 else 0 {
      assert Times(l, x) == if x in acquired then 1 else 0;
      AccountStays(l, u, acquired, x);
    }
  }

  lemma AccountStays(l: Ledger, u: Use, acquired: set<Duty>, x: Duty)
    requires Settled(l, acquired) && Possible(l, u, acquired)
    ensures Times(Effect(l, u, acquired), x) == Times(l, x) + if x in Acquires(u) then 1 else 0
  {
    var k := Effect(l, u, acquired);
    assert Times(l, x) == if x in acquired then 1 else 0;
    forall o: nat {
      EffectOwes(l, u, acquired, o, x);
    }
    match u
    case Acquire(obj, lock, r) =>
      if DutyOf(lock, r) == Some(x) {
        assert Owes(k, obj, x);
      }
      if o :| Owes(l, o, x) {
        assert Owes(k, o, x);
      }
    case CopyTo(from, to) =>
      if o :| Owes(l, o, x) {
        assert Owes(k, if o == from then to else o, x);
      }
    case AssignTo(from, to) =>
      if o :| Owes(l, o, x) {
        assert o == from ==> Owes(k, to, x);
        assert o != from && o != to ==> Owes(k, o, x);
        assert from == to ==> Owes(k, o, x);
      }
      if from != to && Owes(l, to, x) {
        forall o: nat ensures !Owes(k, o, x) {
          assert Owes(l, o, x) ==> o == to;
          assert Owes(l, from, x) ==> from == to;
        }
      }
    case Discard(obj) =>
      if o :| Owes(l, o, x) {
        assert o != obj ==> Owes(k, o, x);
      }
      if Owes(l, obj, x) {
        forall o: nat ensures !Owes(k, o, x) {
          assert Owes(l, o, x) ==> o == obj;
        }
      }
  }

  /** In every program each acquisition is at all times owed by exactly one object, or was unlocked
      once, or was forgotten: it is never unlocked twice. */
  lemma {:induction false} NeverUnlockedTwice(l: Ledger, acquired: set<Duty>, uses: seq<Use>)
    requires Settled(l, acquired) && Runs(l, acquired, uses)
    ensures var (end, all) := After(l, acquired, uses); Settled(end, all)
    decreases |uses|
  {
    hide Settled, Possible, Effect;
    if uses != [] {
      EffectSettled(l, uses[0], acquired);
      NeverUnlockedTwice(Effect(l, uses[0], acquired), acquired + Acquires(uses[0]), uses[1..]);
    }
  }

  /** Nothing is assigned to an object that still owes an unlock, itself apart. */
  ghost predicate Careful(l: Ledger, acquired: set<Duty>, uses: seq<Use>)
    requires Runs(l, acquired, uses)
    decreases |uses|
  {
    uses != [] ==>
      && (uses[0].AssignTo? && uses[0].from != uses[0].to ==> l.owed[uses[0].to] == None)
      && Careful(Effect(l, uses[0], acquired), acquired + Acquires(uses[0]), uses[1..])
  }

  lemma {:induction false} ForgottenGrows(l: Ledger, acquired: set<Duty>, uses: seq<Use>)
    requires Runs(l, acquired, uses)
    ensures l.forgotten <= After(l, acquired, uses).0.forgotten
    decreases |uses|
  {
    if uses != [] {
      ForgottenGrows(Effect(l, uses[0], acquired), acquired + Acquires(uses[0]), uses[1..]);
    }
  }

  /** A program forgets nothing exactly if it is careful. */
  lemma {:induction false} CarefulForgetsNothing(l: Ledger, acquired: set<Duty>, uses: seq<Use>)
    requires Runs(l, acquired, uses)
    ensures Careful(l, acquired, uses) <==> After(l, acquired, uses).0.forgotten == l.forgotten
    decreases |uses|
  {
    if uses != [] {
      var next, all := Effect(l, uses[0], acquired), acquired + Acquires(uses[0]);
      CarefulForgetsNothing(next, all, uses[1..]);
      ForgottenGrows(next, all, uses[1..]);
      if uses[0].AssignTo? && uses[0].from != uses[0].to && l.owed[uses[0].to].Some? {
        var x := l.owed[uses[0].to].value;
        assert next.forgotten[x] == l.forgotten[x] + 1;
        assert After(next, all, uses[1..]).0.forgotten[x] >= next.forgotten[x];
      }
    }
  }

  /** Once all objects are gone, everything acquired was unlocked exactly once if and only if no
      assignment went to an object that still owed an unlock. */
  lemma UnlockedExactlyOnce(uses: seq<Use>)
    requires Runs(NOTHING, {}, uses) && After(NOTHING, {}, uses).0.owed == map[]
    ensures var (end, all) := After(NOTHING, {}, uses);
      Careful(NOTHING, {}, uses) <==> end.unlocked == multiset(all)
  {
    assert forall x :: !Owed(NOTHING, x);
    assert Settled(NOTHING, {});
    NeverUnlockedTwice(NOTHING, {}, uses);
    CarefulForgetsNothing(NOTHING, {}, uses);
    var (end, all) := After(NOTHING, {}, uses);
    forall x: Duty ensures end.unlocked[x] + end.forgotten[x] == multiset(all)[x] {
      assert Times(end, x) == if x in all then 1 else 0;
    }
    if end.forgotten != multiset{} {
      var x :| x in end.forgotten;
      assert end.unlocked[x] != multiset(all)[x];
    }
  }

  // ---------------------------------------------------------------- running programs

  /** The objects owe what the ledger says, each its own. */
  ghost predicate Follows(objects: map<nat, DistLockTry>, l: Ledger)
    reads objects.Values
  {
    && objects.Keys == l.owed.Keys
    && (forall k | k in objects :: objects[k].Valid() && objects[k].Owed() == l.owed[k])
    && forall j, k | j in objects && k in objects && j != k :: objects[j] != objects[k]
  }

  method PerformAcquire(u: Use, objects: map<nat, DistLockTry>, ghost l: Ledger, ghost acquired: set<Duty>)
    returns (after: map<nat, DistLockTry>)
    requires u.Acquire? && Possible(l, u, acquired) && Follows(objects, l)
    ensures Follows(after, Effect(l, u, acquired))
    ensures forall k | k in after :: if k in objects then after[k] == objects[k] else fresh(after[k])
  {
    var made := new DistLockTry(u.lock, u.result);
    after := objects[u.obj := made];
  }

  method PerformCopy(u: Use, objects: map<nat, DistLockTry>, ghost l: Ledger, ghost acquired: set<Duty>)
    returns (after: map<nat, DistLockTry>)
    requires u.CopyTo? && Possible(l, u, acquired) && Follows(objects, l)
    modifies objects.Values
    ensures Follows(after, Effect(l, u, acquired))
    ensures forall k | k in after :: if k in objects then after[k] == objects[k] else fresh(after[k])
  {
    var made := new DistLockTry.Copy(objects[u.from]);
    after := objects[u.to := made];
  }

  method PerformAssign(u: Use, objects: map<nat, DistLockTry>, ghost l: Ledger, ghost acquired: set<Duty>)
    requires u.AssignTo? && Possible(l, u, acquired) && Follows(objects, l)
    modifies objects.Values
    ensures Follows(objects, Effect(l, u, acquired))
  {
    objects[u.to].Assign(objects[u.from]);
  }

  method PerformDiscard(u: Use, objects: map<nat, DistLockTry>, calls: Unlocks, ghost l: Ledger, ghost acquired: set<Duty>)
    returns (after: map<nat, DistLockTry>)
    requires u.Discard? && Possible(l, u, acquired) && Follows(objects, l)
    modifies calls
    ensures Follows(after, Effect(l, u, acquired))
    ensures calls.log == old(calls.log) + Listed(l.owed[u.obj])
    ensures forall k | k in after :: k in objects && after[k] == objects[k]
  {
    objects[u.obj].Destroy(calls);
    after := objects - {u.obj};
  }

  /** One use, carried out on real objects. */
  method Perform(u: Use, objects: map<nat, DistLockTry>, calls: Unlocks, ghost l: Ledger, ghost acquired: set<Duty>)
    returns (after: map<nat, DistLockTry>)
    requires Possible(l, u, acquired) && Follows(objects, l) && multiset(calls.log) == l.unlocked
    modifies objects.Values, calls
    ensures Follows(after, Effect(l, u, acquired)) && multiset(calls.log) == Effect(l, u, acquired).unlocked
    ensures forall k | k in after :: if k in objects then after[k] == objects[k] else fresh(after[k])
  {
    hide Follows;
    after := objects;
    if u.Acquire? {
      after := PerformAcquire(u, objects, l, acquired);
    } else if u.CopyTo? {
      after := PerformCopy(u, objects, l, acquired);
    } else if u.AssignTo? {
      PerformAssign(u, objects, l, acquired);
    } else {
      after := PerformDiscard(u, objects, calls, l, acquired);
    }
  }

  /** Carries out a program on real objects: the unlocks made are those of the ledger. */
  method RunProgram(uses: seq<Use>) returns (unlocks: seq<Duty>)
    requires Runs(NOTHING, {}, uses)
    ensures multiset(unlocks) == After(NOTHING, {}, uses).0.unlocked
  {
    var calls := new Unlocks();
    var objects: map<nat, DistLockTry> := map[];
    ghost var l, acquired: set<Duty> := NOTHING, {};
    assert uses[0..] == uses && Follows(objects, l);
    hide Runs, After, Follows, Possible, Effect;
    var i := 0;
    while i < |uses|
      invariant 0 <= i <= |uses| && Runs(l, acquired, uses[i..])
      invariant After(l, acquired, uses[i..]) == After(NOTHING, {}, uses)
      invariant Follows(objects, l) && multiset(calls.log) == l.unlocked
      invariant fresh(calls) && forall k | k in objects :: fresh(objects[k])
    {
      RunsOn(l, acquired, uses[i..]);
      assert uses[i..][0] == uses[i] && uses[i..][1..] == uses[i + 1..];
      objects := Perform(uses[i], objects, calls, l, acquired);
      l, acquired := Effect(l, uses[i], acquired), acquired + Acquires(uses[i]);
      i := i + 1;
    }
    assert uses[i..] == [];
    RunsOut(l, acquired);
    return calls.log;
  }

  lemma RunsOn(l: Ledger, acquired: set<Duty>, uses: seq<Use>)
    requires Runs(l, acquired, uses) && uses != []
    ensures Possible(l, uses[0], acquired)
    ensures var next, all := Effect(l, uses[0], acquired), acquired + Acquires(uses[0]);
      Runs(next, all, uses[1..]) && After(next, all, uses[1..]) == After(l, acquired, uses)
  {
  }

  lemma RunsOut(l: Ledger, acquired: set<Duty>)
    ensures Runs(l, acquired, []) && After(l, acquired, []) == (l, acquired)
  {
  }

  lemma RunsFrom(l: Ledger, acquired: set<Duty>, u: Use, rest: seq<Use>)
    requires Possible(l, u, acquired) && Runs(Effect(l, u, acquired), acquired + Acquires(u), rest)
    ensures Runs(l, acquired, [u] + rest)
    ensures After(l, acquired, [u] + rest) == After(Effect(l, u, acquired), acquired + Acquires(u), rest)
  {
    assert ([u] + rest)[1..] == rest;
  }

  const HELD_1 := Duty(1, LockDoc(2, 1, "p"))
  const HELD_2 := Duty(2, LockDoc(2, 2, "p"))

  /** Assigning over an object that holds a lock leaves that lock set. */
  lemma AssignmentForgets()
    ensures
      var uses := [Acquire(0, 1, Got(HELD_1.other))] + ([Acquire(1, 2, Got(HELD_2.other))] + ([AssignTo(1, 0)] + [Discard(0)]));
      Runs(NOTHING, {}, uses)
      && After(NOTHING, {}, uses).0.forgotten == multiset{HELD_1} && After(NOTHING, {}, uses).0.unlocked == multiset{HELD_2}
  {
    var a := Effect(NOTHING, Acquire(0, 1, Got(HELD_1.other)), {});
    var b := Effect(a, Acquire(1, 2, Got(HELD_2.other)), {HELD_1});
    var c := Effect(b, AssignTo(1, 0), {HELD_1, HELD_2});
    assert {} + {HELD_1} == {HELD_1} && {HELD_1} + {HELD_2} == {HELD_1, HELD_2};
    assert c.owed[0] == Some(HELD_2) && c.forgotten == multiset{HELD_1};
    hide Runs, After;
    RunsOut(Effect(c, Discard(0), {HELD_1, HELD_2}), {HELD_1, HELD_2});
    RunsFrom(c, {HELD_1, HELD_2}, Discard(0), []);
    assert [Discard(0)] + [] == [Discard(0)];
    RunsFrom(b, {HELD_1, HELD_2}, AssignTo(1, 0), [Discard(0)]);
    RunsFrom(a, {HELD_1}, Acquire(1, 2, Got(HELD_2.other)), [AssignTo(1, 0)] + [Discard(0)]);
    RunsFrom(NOTHING, {}, Acquire(0, 1, Got(HELD_1.other)), [Acquire(1, 2, Got(HELD_2.other))] + ([AssignTo(1, 0)] + [Discard(0)]));
  }
}
