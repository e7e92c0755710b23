/** The conditions of a creature and what they do to its speed. */
module SpeedLedger {

  import opened Basics

  datatype Kind = Haste | Paralyze | Other(code: nat)

  /** What tells one active condition from another. */
  datatype Key = Key(kind: Kind, id: int, subId: nat)

  /** What comes of adding a condition. */
  datatype Added = PutOff | Merged | Started | Refused

  class Condition {
    const kind: Kind
    const id: int
    const subId: nat
    /** -1 for a condition without an end. */
    var ticks: int
    var endTime: int
    /** The change of speed of a haste or a paralysis; 0 while it is still to be worked out. */
    var speedDelta: int
    ghost var starts: nat
    ghost var ends: nat

    constructor (kind: Kind, id: int, subId: nat, ticks: int, speedDelta: int)
      ensures this.kind == kind && this.id == id && this.subId == subId
      ensures this.ticks == ticks && endTime == 0 && this.speedDelta == speedDelta && starts == ends == 0
    {
      this.kind, this.id, this.subId, this.ticks, this.speedDelta := kind, id, subId, ticks, speedDelta;
      endTime, starts, ends := 0, 0, 0;
    }

    predicate IsSpeed() { kind.Haste? || kind.Paralyze? }

    function KeyOf(): Key { Key(kind, id, subId) }

    /** What the condition adds to the speed. */
    function Delta(): int
      reads `speedDelta
    {
      if IsSpeed() then speedDelta else 0
    }

    method SetTicks(newTicks: int, now: int)
      modifies `ticks, `endTime
      ensures ticks == newTicks && endTime == newTicks + now
    {
      ticks, endTime := newTicks, newTicks + now;
    }

    /** Whether a further condition of the same kind may replace what is left of this one. */
    predicate MayUpdate(other: Condition, now: int)
      reads this, other
    {
      kind == other.kind && !(ticks == -1 && other.ticks > 0) && !(other.ticks >= 0 && endTime > now + other.ticks)
    }

    /** One turn of the clock; false when the condition is over. */
    method Execute(interval: nat, now: int) returns (goesOn: bool)
      modifies `ticks
      ensures goesOn == old(GoesOn(now))
      ensures ticks == TicksAfter(old(ticks), interval)
    {
      if ticks == -1 { return true; }
      ticks := if ticks > interval then ticks - interval else 0;
      return endTime >= now;
    }

    predicate GoesOn(now: int)
      reads `ticks, `endTime
    {
      ticks == -1 || endTime >= now
    }
  }

  // ---------------------------------------------------------------------
  // Lists
  // ---------------------------------------------------------------------

  /** The conditions of a list that are not of a kind, nor, unless any id is meant, of an id. */
  function Except(s: seq<Condition>, kind: Kind, anyId: bool, id: int): seq<Condition> {
    if s == [] then []
    else (if Hit(s[0], kind, anyId, id) then [] else [s[0]]) + Except(s[1..], kind, anyId, id)
  }

  predicate Hit(c: Condition, kind: Kind, anyId: bool, id: int) {
    c.kind == kind && (anyId || c.id == id)
  }

  /** What is left of the list when a paralysis drives out hastes, or a haste paralyses. */
  function DrivenOut(s: seq<Condition>, kind: Kind, haste: bool, paralysis: bool): seq<Condition> {
    if kind.Paralyze? && haste then Except(s, Haste, true, 0)
    else if kind.Haste? && paralysis then Except(s, Paralyze, true, 0)
    else s
  }

  lemma {:induction false} ExceptAppend(a: seq<Condition>, b: seq<Condition>, kind: Kind, anyId: bool, id: int)
    ensures Except(a + b, kind, anyId, id) == Except(a, kind, anyId, id) + Except(b, kind, anyId, id)
  {
    if a == [] {
      assert a + b == b;
    } else {
      assert (a + b)[1..] == a[1..] + b;
      ExceptAppend(a[1..], b, kind, anyId, id);
    }
  }

  ghost function Deltas(s: seq<Condition>): (r: seq<int>)
    reads s`speedDelta
    ensures |r| == |s| && forall i | 0 <= i < |s| :: r[i] == s[i].Delta()
  {
    if s == [] then [] else [s[0].Delta()] + Deltas(s[1..])
  }

  lemma {:induction false} DeltasWithout(s: seq<Condition>, k: nat)
    requires k < |s|
    ensures Deltas(Without(s, k)) == Without(Deltas(s), k)
  {
    var a, b := Deltas(Without(s, k)), Without(Deltas(s), k);
    assert forall i | 0 <= i < |a| :: a[i] == b[i];
  }

  lemma SumSnoc(s: seq<Condition>, c: Condition)
    ensures Sum(Deltas(s + [c])) == Sum(Deltas(s)) + c.Delta()
  {
    assert Deltas(s + [c]) == Deltas(s) + [c.Delta()];
    SumAppend(Deltas(s), [c.Delta()]);
    SumOne(c.Delta());
  }

  function TicksAfter(ticks: int, interval: nat): int {
    if ticks == -1 then -1 else if ticks > interval then ticks - interval else 0
  }

  /** Which of the conditions go on at a time. */
  ghost function Lasting(s: seq<Condition>, now: int): (r: seq<bool>)
    reads s`ticks, s`endTime
    ensures |r| == |s|
  {
    if s == [] then [] else [s[0].GoesOn(now)] + Lasting(s[1..], now)
  }

  ghost function TicksOf(s: seq<Condition>): (r: seq<int>)
    reads s`ticks
    ensures |r| == |s| && forall i | 0 <= i < |s| :: r[i] == s[i].ticks
  {
    if s == [] then [] else [s[0].ticks] + TicksOf(s[1..])
  }

  /** What is left of the ticks after a turn. */
  function Lowered(ticks: seq<int>, interval: nat): (r: seq<int>)
    ensures |r| == |ticks| && forall i | 0 <= i < |ticks| :: r[i] == TicksAfter(ticks[i], interval)
  {
    seq(|ticks|, i requires 0 <= i < |ticks| => TicksAfter(ticks[i], interval))
  }

  /** Of distinct elements, the first of the rest is neither among those done nor among those to come. */
  lemma Ahead(s: seq<Condition>, done: seq<Condition>, rest: seq<Condition>, w: set<Condition>)
    requires s == done + rest && rest != [] && (forall c <- s :: c in w)
    requires forall i, j | 0 <= i < j < |s| :: s[i] != s[j]
    ensures s[|done|] == rest[0] && rest[0] in w && rest[0] !in done && rest[0] !in rest[1..]
    ensures rest == [rest[0]] + rest[1..]
  {
    forall c <- done ensures c != rest[0] {
      var i :| 0 <= i < |done| && done[i] == c;
      assert s[i] != s[|done|];
    }
    forall c <- rest[1..] ensures c != rest[0] {
      var j :| 0 <= j < |rest[1..]| && rest[1..][j] == c;
      assert s[|done|] != s[|done| + 1 + j];
    }
  }

  lemma Across<T>(s: seq<T>, done: seq<T>, rest: seq<T>)
    requires s == done + rest && rest != []
    ensures s == (done + [rest[0]]) + rest[1..]
  {
  }

  lemma Nothing(s: seq<Condition>, interval: nat)
    ensures TicksOf([]) == Lowered([], interval) && Selected<Condition>([], []) + s == s && [] + s == s
  {
  }

  lemma Heads(c: Condition, later: seq<Condition>, rest: seq<Condition>, now: int)
    requires rest == [c] + later
    ensures Lasting(rest, now) == [c.GoesOn(now)] + Lasting(later, now) && TicksOf(rest) == [c.ticks] + TicksOf(later)
  {
    assert rest[1..] == later;
  }

  lemma LoweredNext(done: seq<Condition>, ticks: seq<int>, c: Condition, tick: int, interval: nat)
    requires TicksOf(done) == Lowered(ticks, interval) && c.ticks == TicksAfter(tick, interval)
    ensures TicksOf(done + [c]) == Lowered(ticks + [tick], interval)
  {
    var a, b := TicksOf(done + [c]), Lowered(ticks + [tick], interval);
    hide TicksOf, Lowered, TicksAfter;
    assert |done| == |TicksOf(done)| && |ticks| == |Lowered(ticks, interval)|;
    forall i | 0 <= i < |a| ensures a[i] == b[i] {
      if i < |done| {
        assert TicksOf(done)[i] == Lowered(ticks, interval)[i];
      }
    }
  }

  /** The elements that are marked, in order. */
  function Selected<T>(s: seq<T>, marks: seq<bool>): seq<T>
    requires |marks| == |s|
  {
    if s == [] then [] else Selected(s[..|s| - 1], marks[..|s| - 1]) + if marks[|s| - 1] then [s[|s| - 1]] else []
  }

  /** One element further: it is kept or taken out. */
  lemma SelectNext<T>(done: seq<T>, marks: seq<bool>, x: T, mark: bool, later: seq<T>)
    requires |marks| == |done|
    ensures var kept := Selected(done, marks);
            var now := kept + ([x] + later);
      && now[|kept|] == x
      && (if mark then now else Without(now, |kept|)) == Selected(done + [x], marks + [mark]) + later
  {
    assert (done + [x])[..|done|] == done && (marks + [mark])[..|done|] == marks;
    var kept := Selected(done, marks);
    assert Selected(done + [x], marks + [mark]) == kept + if mark then [x] else [];
    hide Selected, Without;
    StepOver(kept, x, later);
    assert kept + [] == kept;
  }

  class Creature {
    var baseSpeed: nat
    var varSpeed: int
    var conditions: seq<Condition>
    /** Every change of speed that did not come from a condition. */
    ghost var external: int
    ghost var known: set<Condition>

    /** No two active conditions share kind, id and sub-id. */
    ghost predicate Distinct()
      reads `conditions, `known
    {
      (forall c <- conditions :: c in known) &&
      forall i, j | 0 <= i < j < |conditions| :: conditions[i].KeyOf() != conditions[j].KeyOf()
    }

    /** No active condition has this one's key. */
    ghost predicate NewKey(c: Condition)
      reads `conditions
    {
      forall d <- conditions :: d.KeyOf() != c.KeyOf()
    }

    /** Every condition that has come in was started once, and has been ended once exactly if it is no longer active. */
    ghost predicate Accounted()
      reads `conditions, `known, known`starts, known`ends
    {
      forall c <- known :: c.starts == 1 && c.ends == if c in conditions then 0 else 1
    }

    /** The speed beyond the base speed is what the active conditions add, and what came from elsewhere. */
    ghost predicate Balanced()
      reads `varSpeed, `external, `conditions, conditions`speedDelta
    {
      varSpeed - external == Sum(Deltas(conditions))
    }

    ghost predicate Valid()
      reads this, known, conditions
    {
      Distinct() && Accounted() && Balanced()
    }

    constructor (baseSpeed: nat)
      ensures Valid() && this.baseSpeed == baseSpeed && varSpeed == 0 && conditions == [] && known == {}
    {
      this.baseSpeed := baseSpeed;
      varSpeed, conditions, external, known := 0, [], 0, {};
    }

    function GetSpeed(): int
      reads this
    {
      baseSpeed + varSpeed
    }

    /** Changes the speed by an amount, by way of the speed as a whole. */
    method ChangeSpeed(delta: int)
      modifies `varSpeed
      ensures varSpeed == old(varSpeed) + delta
    {
      var speed := GetSpeed() - baseSpeed;
      varSpeed := speed + delta;
    }

    /** A change of speed from elsewhere. */
    method ChangeFromElsewhere(delta: int)
      requires Valid()
      modifies `varSpeed, `external
      ensures Valid() && varSpeed == old(varSpeed) + delta && external == old(external) + delta
    {
      ChangeSpeed(delta);
      external := external + delta;
    }

    /** Works out the change of a speed condition if need be, and applies it. */
    method Start(c: Condition, now: int, roll: int)
      modifies `varSpeed, c
      ensures c.speedDelta == if c.IsSpeed() && old(c.speedDelta) == 0 then roll else old(c.speedDelta)
      ensures varSpeed == old(varSpeed) + c.Delta()
      ensures c.ticks == old(c.ticks) && (c.ticks > 0 ==> c.endTime == c.ticks + now)
      ensures c.starts == old(c.starts) + 1 && c.ends == old(c.ends)
    {
      if c.ticks > 0 {
        c.endTime := c.ticks + now;
      }
      if c.IsSpeed() {
        if c.speedDelta == 0 {
          c.speedDelta := roll;
        }
        ChangeSpeed(c.speedDelta);
      }
      c.starts := c.starts + 1;
    }

    method End(c: Condition)
      modifies `varSpeed, c`ends
      ensures varSpeed == old(varSpeed) - c.Delta() && c.ends == old(c.ends) + 1
    {
      if c.IsSpeed() {
        ChangeSpeed(-c.speedDelta);
      }
      c.ends := c.ends + 1;
    }

    /** Takes an active condition off the list and ends it. */
    method RemoveAt(k: nat, c: Condition)
      requires Valid() && k < |conditions| && c == conditions[k]
      modifies `varSpeed, `conditions, c`ends
      ensures Valid() && conditions == Without(old(conditions), k)
    {
      DeltasWithout(conditions, k);
      SumWithout(Deltas(conditions), k);
      hide Distinct, Accounted, Sum, Deltas, Without;
      Strike(k, c);
    }

    method Strike(k: nat, c: Condition)
      requires Distinct() && Accounted() && k < |conditions| && c == conditions[k]
      modifies `varSpeed, `conditions, c`ends
      ensures Distinct() && Accounted() && conditions == Without(old(conditions), k)
      ensures varSpeed == old(varSpeed) - c.Delta()
    {
      OnceOnly(k);
      conditions := conditions[..k] + conditions[k + 1..];
      End(c);
      assert conditions == Without(old(conditions), k);
    }

    lemma OnceOnly(k: nat)
      requires Distinct() && k < |conditions|
      ensures forall i | 0 <= i < |conditions| && i != k :: conditions[i] != conditions[k]
      ensures forall c :: c in conditions <==> c == conditions[k] || c in Without(conditions, k)
      ensures conditions[k] !in Without(conditions, k)
    {
      assert conditions == conditions[..k] + [conditions[k]] + conditions[k + 1..];
    }

    // -------------------------------------------------------------------
    // Adding
    // -------------------------------------------------------------------

    /** A further condition with the same key is worked into the active one in place; the speed changes by the difference. */
    method Merge(k: nat, prev: Condition, c: Condition, now: int, roll: int)
      requires Valid() && k < |conditions| && prev == conditions[k] && c !in known && prev.KeyOf() == c.KeyOf()
      modifies `varSpeed, prev`ticks, prev`endTime, prev`speedDelta
      ensures Valid()
      ensures varSpeed == old(varSpeed) + prev.Delta() - old(prev.Delta())
      ensures if old(Takes(prev, c, now)) then prev.ticks == c.ticks && prev.endTime == c.ticks + now
              else prev.ticks == old(prev.ticks) && prev.endTime == old(prev.endTime)
      ensures prev.speedDelta ==
        if !prev.IsSpeed() || !old(Takes(prev, c, now)) then old(prev.speedDelta)
        else if c.speedDelta == 0 then roll else c.speedDelta
    {
      hide Distinct, Accounted, Balanced;
      if prev.IsSpeed() {
        if prev.ticks == -1 && c.ticks > 0 { return; }
        prev.SetTicks(c.ticks, now);
        Exchange(k, prev, if c.speedDelta == 0 then roll else c.speedDelta);
      } else {
        if prev.MayUpdate(c, now) {
          prev.SetTicks(c.ticks, now);
        }
      }
    }

    /** The change of an active condition is replaced, and the speed changes by the difference. */
    method Exchange(k: nat, prev: Condition, speedDelta: int)
      requires Valid() && k < |conditions| && prev == conditions[k] && prev.IsSpeed()
      modifies `varSpeed, prev`speedDelta
      ensures Valid() && prev.speedDelta == speedDelta
      ensures varSpeed == old(varSpeed) + prev.speedDelta - old(prev.speedDelta)
    {
      hide Distinct, Accounted, Sum, Deltas;
      var oldSpeedDelta := prev.speedDelta;
      SetDelta(k, prev, speedDelta);
      var change := prev.speedDelta - oldSpeedDelta;
      if change != 0 {
        ChangeSpeed(change);
      }
    }

    method SetDelta(k: nat, prev: Condition, speedDelta: int)
      requires Distinct() && k < |conditions| && prev == conditions[k] && prev.IsSpeed()
      modifies prev`speedDelta
      ensures prev.speedDelta == speedDelta
      ensures Sum(Deltas(conditions)) == old(Sum(Deltas(conditions))) + speedDelta - old(prev.speedDelta)
    {
      OnceOnly(k);
      hide Distinct, Sum;
      ghost var deltas := Deltas(conditions);
      SumUpdate(deltas, k, speedDelta);
      prev.speedDelta := speedDelta;
      assert Deltas(conditions) == deltas[k := speedDelta];
    }

    /** Whether an active condition takes on a further one. */
    predicate Takes(prev: Condition, c: Condition, now: int)
      reads prev, c
    {
      if prev.IsSpeed() then !(prev.ticks == -1 && c.ticks > 0) else prev.MayUpdate(c, now)
    }

    /** The first condition with a key, or the length of the list. */
    method GetCondition(key: Key) returns (k: nat)
      ensures k <= |conditions|
      ensures k < |conditions| ==> conditions[k].KeyOf() == key
      ensures forall i | 0 <= i < k :: conditions[i].KeyOf() != key
    {
      k := 0;
      while k < |conditions| && conditions[k].KeyOf() != key
        invariant k <= |conditions| && forall i | 0 <= i < k :: conditions[i].KeyOf() != key
      {
        k := k + 1;
      }
    }

    /** Whether a condition of a kind, with a sub-id, is active and not over. */
    ghost predicate HasSub(kind: Kind, subId: nat, now: int)
      reads this, conditions
    {
      exists c <- conditions :: c.kind == kind && c.subId == subId && (c.endTime >= now || c.ticks == -1)
    }

    /** The same for the sub-id that is asked about when none is given. */
    ghost predicate Has(kind: Kind, now: int)
      reads this, conditions
    {
      HasSub(kind, 0, now)
    }

    method HasCondition(kind: Kind, subId: nat, suppressed: Kind -> bool, now: int) returns (has: bool)
      ensures has == (!suppressed(kind) && HasSub(kind, subId, now))
    {
      if suppressed(kind) { return false; }
      var k := 0;
      while k < |conditions|
        invariant k <= |conditions|
        invariant forall i | 0 <= i < k ::
          !(conditions[i].kind == kind && conditions[i].subId == subId && (conditions[i].endTime >= now || conditions[i].ticks == -1))
      {
        var c := conditions[k];
        if c.kind == kind && c.subId == subId && (c.endTime >= now || c.ticks == -1) { return true; }
        k := k + 1;
      }
      return false;
    }

    /** A condition with a key of its own is started and put at the end of the list. */
    method Append(c: Condition, now: int, roll: int)
      requires Valid() && c !in known && c.starts == 0 && c.ends == 0
      requires NewKey(c)
      modifies `varSpeed, `conditions, `known, c
      ensures Valid() && conditions == old(conditions) + [c] && known == old(known) + {c}
      ensures varSpeed == old(varSpeed) + c.Delta()
      ensures c.speedDelta == if c.IsSpeed() && old(c.speedDelta) == 0 then roll else old(c.speedDelta)
      ensures c.starts == 1
    {
      NotActive(c);
      hide Distinct, Accounted, NewKey, Sum, Deltas, Condition.Delta, Condition.IsSpeed;
      ghost var sum := Sum(Deltas(conditions));
      Start(c, now, roll);
      assert Sum(Deltas(conditions)) == sum;
      SumSnoc(conditions, c);
      Push(c);
    }

    method Push(c: Condition)
      requires Distinct() && c !in known && c.starts == 1 && c.ends == 0 && c !in conditions
      requires Accounted() && NewKey(c)
      modifies `conditions, `known
      ensures Distinct() && Accounted() && conditions == old(conditions) + [c] && known == old(known) + {c}
    {
      conditions := conditions + [c];
      known := known + {c};
    }

    /** Starts a condition with a key of its own; of the opposite kinds, those that may leave are driven out. */
    method Commence(c: Condition, walkDelay: int, suppressed: Kind -> bool, now: int, roll: int)
      requires Valid() && c !in known && c.starts == 0 && c.ends == 0
      requires NewKey(c)
      modifies `varSpeed, `conditions, `known, known`ends, c
      ensures Valid() && c in known && c.starts == 1
      ensures conditions == DrivenOut(old(conditions) + [c], c.kind, old(!suppressed(Haste) && Has(Haste, now)),
                                      walkDelay <= 0 && old(!suppressed(Paralyze) && Has(Paralyze, now)))
    {
      hide Distinct, Accounted, NewKey, Balanced, HasSub, Except;
      AppendOnly(c, now, roll);
      OnAddCondition(c.kind, walkDelay, suppressed, now);
    }

    /** Only the presence of its own kind is changed by what a condition is. */
    method AppendOnly(c: Condition, now: int, roll: int)
      requires Valid() && c !in known && c.starts == 0 && c.ends == 0
      requires NewKey(c)
      modifies `varSpeed, `conditions, `known, c
      ensures Valid() && conditions == old(conditions) + [c] && known == old(known) + {c} && c.starts == 1
      ensures forall kind | kind != c.kind :: Has(kind, now) == old(Has(kind, now))
    {
      NotActive(c);
      hide Distinct, Accounted, NewKey, Balanced;
      ghost var before := conditions;
      Append(c, now, roll);
      assert forall d :: d in conditions <==> d in before || d == c;
    }

    // -------------------------------------------------------------------
    // Removing
    // -------------------------------------------------------------------

    /** Removes the conditions of a kind, of one id or of any. A paralysis waits for the walk to be over unless forced. */
    method RemoveMatching(kind: Kind, anyId: bool, id: int, force: bool, walkDelay: int)
      requires Valid()
      modifies `varSpeed, `conditions, known`ends
      ensures Valid()
      ensures conditions == if !force && kind.Paralyze? && walkDelay > 0 then old(conditions)
                            else Except(old(conditions), kind, anyId, id)
    {
      hide Distinct, Accounted, Balanced, Without, Hit, Sifting;
      ghost var list := conditions;
      ghost var p := 0;
      var it: nat := 0;
      SiftStart(list, kind, anyId, id);
      while it < |conditions|
        invariant Valid() && Sifting(conditions, it, list, p, kind, anyId, id)
        invariant !force && kind.Paralyze? && walkDelay > 0 ==> conditions == list
        decreases |list| - p
      {
        var c := conditions[it];
        SiftNext(conditions, it, list, p, kind, anyId, id);
        if !Hit(c, kind, anyId, id) {
          it := it + 1;
        } else {
          if !force && kind == Paralyze && walkDelay > 0 { return; }
          Known(it);
          RemoveAt(it, c);
        }
        p := p + 1;
      }
      SiftEnd(conditions, it, list, p, kind, anyId, id);
    }

    /** Removes one condition, if it is active. */
    method RemoveCondition(c: Condition, force: bool, walkDelay: int)
      requires Valid()
      modifies `varSpeed, `conditions, c`ends
      ensures Valid()
      ensures if c !in old(conditions) || (!force && c.kind.Paralyze? && walkDelay > 0) then conditions == old(conditions)
              else exists k: nat :: k < |old(conditions)| && old(conditions)[k] == c && conditions == Without(old(conditions), k)
    {
      hide Distinct, Accounted, Balanced, Without;
      var k := Find(c);
      if k == |conditions| { return; }
      if !force && c.kind == Paralyze && walkDelay > 0 { return; }
      RemoveAt(k, c);
    }

    method Find(c: Condition) returns (k: nat)
      ensures k <= |conditions| && (k < |conditions| <==> c in conditions)
      ensures k < |conditions| ==> conditions[k] == c
      ensures c !in conditions[..k]
    {
      k := 0;
      while k < |conditions| && conditions[k] != c
        invariant k <= |conditions| && c !in conditions[..k]
      {
        k := k + 1;
      }
    }

    /** A haste drives out a paralysis and the other way round, the paralysis only if the walk lets it go. */
    method OnAddCondition(kind: Kind, walkDelay: int, suppressed: Kind -> bool, now: int)
      requires Valid()
      modifies `varSpeed, `conditions, known`ends
      ensures Valid()
      ensures conditions == DrivenOut(old(conditions), kind, old(kind.Paralyze? && !suppressed(Haste) && Has(Haste, now)),
        walkDelay <= 0 && old(kind.Haste? && !suppressed(Paralyze) && Has(Paralyze, now)))
    {
      hide Distinct, Accounted, Balanced, Except, HasSub;
      if kind == Paralyze {
        var has := HasCondition(Haste, 0, suppressed, now);
        if has { RemoveMatching(Haste, true, 0, false, walkDelay); }
      } else if kind == Haste {
        var has := HasCondition(Paralyze, 0, suppressed, now);
        if has { RemoveMatching(Paralyze, true, 0, false, walkDelay); }
      }
    }

    /** Adds a condition: puts it off, works it into the one with the same key, or starts it. */
    method AddCondition(c: Condition, force: bool, startable: bool, walkDelay: int, suppressed: Kind -> bool, now: int, roll: int)
      returns (r: Added)
      requires Valid() && c !in known && c.starts == 0 && c.ends == 0 && (c.IsSpeed() ==> startable)
      modifies `varSpeed, `conditions, `known, known, c
      ensures Valid()
      ensures r.Refused? ==> !startable && conditions == old(conditions) && varSpeed == old(varSpeed)
      ensures r.Started? ==> startable
      ensures r.PutOff? <==> !force && c.kind.Haste? && walkDelay > 0 && old(!suppressed(Paralyze) && Has(Paralyze, now))
      ensures r.PutOff? ==> conditions == old(conditions) && varSpeed == old(varSpeed)
      ensures !r.PutOff? ==> (r.Merged? <==> exists d <- old(conditions) :: d.KeyOf() == c.KeyOf())
      ensures r.Merged? ==> conditions == old(conditions)
      ensures r.Started? ==>
        conditions == DrivenOut(old(conditions) + [c], c.kind, old(!suppressed(Haste) && Has(Haste, now)),
                                walkDelay <= 0 && old(!suppressed(Paralyze) && Has(Paralyze, now)))
      ensures if r.Started? then c.starts == 1 && c in known else c.starts == 0 && known == old(known)
    {
      hide Distinct, Accounted, Balanced, HasSub, DrivenOut, Condition.KeyOf;
      if !force && c.kind == Haste {
        var has := HasCondition(Paralyze, 0, suppressed, now);
        if has && walkDelay > 0 { return PutOff; }
      }
      r := AddNow(c, startable, walkDelay, suppressed, now, roll);
    }

    method AddNow(c: Condition, startable: bool, walkDelay: int, suppressed: Kind -> bool, now: int, roll: int) returns (r: Added)
      requires Valid() && c !in known && c.starts == 0 && c.ends == 0 && (c.IsSpeed() ==> startable)
      modifies `varSpeed, `conditions, `known, known, c
      ensures r.Refused? ==> !startable && conditions == old(conditions) && varSpeed == old(varSpeed)
      ensures r.Started? ==> startable
      ensures Valid() && !r.PutOff? && (r.Merged? <==> exists d <- old(conditions) :: d.KeyOf() == c.KeyOf())
      ensures r.Merged? ==> conditions == old(conditions)
      ensures r.Started? ==>
        conditions == DrivenOut(old(conditions) + [c], c.kind, old(!suppressed(Haste) && Has(Haste, now)),
                                walkDelay <= 0 && old(!suppressed(Paralyze) && Has(Paralyze, now)))
      ensures if r.Started? then c.starts == 1 && c in known else c.starts == 0 && known == old(known)
    {
      NotActive(c);
      hide Distinct, Accounted, Balanced, HasSub, DrivenOut, Takes, Condition.KeyOf, Condition.Delta;
      var k := GetCondition(c.KeyOf());
      if k < |conditions| {
        Known(k);
        Merge(k, conditions[k], c, now, roll);
        return Merged;
      }
      if !startable { return Refused; }
      Commence(c, walkDelay, suppressed, now, roll);
      r := Started;
    }

    lemma NotActive(c: Condition)
      requires Distinct() && c !in known
      ensures c !in conditions
    {
    }

    /** A turn of the clock for every active condition; those that are over are removed. */
    method ExecuteConditions(interval: nat, now: int)
      requires Valid()
      modifies `varSpeed, `conditions, known`ends, known`ticks
      ensures Valid()
      ensures conditions == Selected(old(conditions), old(Lasting(conditions, now)))
      ensures TicksOf(old(conditions)) == Lowered(old(TicksOf(conditions)), interval)
    {
      Apart();
      hide Accounted, Balanced, Distinct, Selected, Lasting, TicksOf, Lowered, Without, TicksAfter, Condition.GoesOn;
      var temp := conditions;
      ghost var done, rest: seq<Condition> := [], temp;
      ghost var doneLasts, restLasts: seq<bool> := [], Lasting(temp, now);
      ghost var doneTicks, restTicks: seq<int> := [], TicksOf(temp);
      ghost var lasts, ticks := restLasts, restTicks;
      Nothing(temp, interval);
      var p := 0;
      while p < |temp|
        invariant p == |done| == |doneLasts| == |doneTicks| && |restLasts| == |restTicks| == |rest|
        invariant temp == done + rest && lasts == doneLasts + restLasts && ticks == doneTicks + restTicks
        invariant Valid() && conditions == Selected(done, doneLasts) + rest
        invariant Lasting(rest, now) == restLasts && TicksOf(rest) == restTicks
        invariant TicksOf(done) == Lowered(doneTicks, interval)
      {
        ghost var c, later, last, tick := rest[0], rest[1..], restLasts[0], restTicks[0];
        Ahead(temp, done, rest, known);
        Across(temp, done, rest);
        Across(lasts, doneLasts, restLasts);
        Across(ticks, doneTicks, restTicks);
        Heads(c, later, rest, now);
        SelectNext(done, doneLasts, c, last, later);
        Visit(temp[p], done, later, |Selected(done, doneLasts)|, interval, now);
        LoweredNext(done, doneTicks, c, tick, interval);
        done, doneLasts, doneTicks := done + [c], doneLasts + [last], doneTicks + [tick];
        rest, restLasts, restTicks := later, restLasts[1..], restTicks[1..];
        p := p + 1;
      }
      assert done == temp && doneLasts == lasts && doneTicks == ticks;
    }

    /** The turn of one condition, which is at a known place of the list; those before and after it are left alone. */
    method Visit(c: Condition, ghost done: seq<Condition>, ghost rest: seq<Condition>, ghost at: nat, interval: nat, now: int)
      requires Valid() && at < |conditions| && conditions[at] == c && c !in done && c !in rest
      modifies `varSpeed, `conditions, c`ends, c`ticks
      ensures Valid() && conditions == if old(c.GoesOn(now)) then old(conditions) else Without(old(conditions), at)
      ensures c.ticks == TicksAfter(old(c.ticks), interval)
      ensures Lasting(rest, now) == old(Lasting(rest, now)) && TicksOf(rest) == old(TicksOf(rest))
      ensures TicksOf(done) == old(TicksOf(done))
    {
      hide Accounted, Balanced, Distinct, Lasting, TicksOf, Without;
      var k := Find(c);
      FoundThere(k, at);
      var goesOn := Turn(c, interval, now);
      if !goesOn {
        RemoveAt(k, c);
      }
    }

    /** The turn of one condition leaves the books as they are. */
    method Turn(c: Condition, interval: nat, now: int) returns (goesOn: bool)
      requires Valid()
      modifies c`ticks
      ensures Valid() && goesOn == old(c.GoesOn(now)) && c.ticks == TicksAfter(old(c.ticks), interval)
    {
      hide Distinct, Accounted, Balanced;
      goesOn := c.Execute(interval, now);
    }

    /** Active conditions are distinct objects, all of them known. */
    lemma Apart()
      requires Distinct()
      ensures forall i, j | 0 <= i < j < |conditions| :: conditions[i] != conditions[j]
      ensures forall c <- conditions :: c in known
    {
    }

    lemma FoundThere(k: nat, at: nat)
      requires Distinct() && k < |conditions| && at < |conditions| && conditions[k] == conditions[at]
      ensures k == at
    {
    }

    lemma Known(k: nat)
      requires Distinct() && k < |conditions|
      ensures conditions[k] in known
    {
    }
  }

  /** The first p conditions of a list have been sifted; of them, `it` are left. */
  ghost predicate Sifting(now: seq<Condition>, it: nat, list: seq<Condition>, p: nat, kind: Kind, anyId: bool, id: int) {
    p <= |list| && now == Except(list[..p], kind, anyId, id) + list[p..] && it == |Except(list[..p], kind, anyId, id)|
  }

  lemma SiftStart(list: seq<Condition>, kind: Kind, anyId: bool, id: int)
    ensures Sifting(list, 0, list, 0, kind, anyId, id)
  {
    assert list[..0] == [] && list[0..] == list;
  }

  lemma SiftEnd(now: seq<Condition>, it: nat, list: seq<Condition>, p: nat, kind: Kind, anyId: bool, id: int)
    requires Sifting(now, it, list, p, kind, anyId, id) && it >= |now|
    ensures now == Except(list, kind, anyId, id)
  {
    assert list[p..] == [] && list[..p] == list;
  }

  /** One condition further along the list: it is passed over or taken out. */
  lemma SiftNext(now: seq<Condition>, it: nat, list: seq<Condition>, p: nat, kind: Kind, anyId: bool, id: int)
    requires Sifting(now, it, list, p, kind, anyId, id) && it < |now|
    ensures p < |list|
    ensures if Hit(now[it], kind, anyId, id) then Sifting(Without(now, it), it, list, p + 1, kind, anyId, id)
            else Sifting(now, it + 1, list, p + 1, kind, anyId, id)
  {
    hide Without, Except, Hit;
    var x, kept, rest := list[p], Except(list[..p], kind, anyId, id), list[p + 1..];
    SplitAt(list, p);
    ExceptAppend(list[..p], [x], kind, anyId, id);
    ExceptOne(x, kind, anyId, id);
    StepOver(kept, x, rest);
    assert kept + [] == kept;
  }

  lemma SplitAt<T>(s: seq<T>, p: nat)
    requires p < |s|
    ensures s[..p + 1] == s[..p] + [s[p]] && s[p..] == [s[p]] + s[p + 1..]
  {
  }

  lemma ExceptOne(x: Condition, kind: Kind, anyId: bool, id: int)
    ensures Except([x], kind, anyId, id) == if Hit(x, kind, anyId, id) then [] else [x]
  {
    assert [x][1..] == [];
  }

  lemma StepOver<T>(kept: seq<T>, x: T, rest: seq<T>)
    ensures var now := kept + ([x] + rest);
      now[|kept|] == x && Without(now, |kept|) == kept + rest && now == (kept + [x]) + rest
  {
  }
}
