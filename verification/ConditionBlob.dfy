/** Conditions as a concatenated record format: what savePlayer writes and loadPlayer reads back. */
module ConditionBlob {
  import opened Basics
  import opened ByteStream

  const ATTR_TYPE: Byte := 1
  const ATTR_ID: Byte := 2
  const ATTR_TICKS: Byte := 3
  const ATTR_HEALTHTICKS: Byte := 4
  const ATTR_HEALTHGAIN: Byte := 5
  const ATTR_MANATICKS: Byte := 6
  const ATTR_MANAGAIN: Byte := 7
  const ATTR_SPEEDDELTA: Byte := 11
  const ATTR_FORMULA_MINA: Byte := 12
  const ATTR_FORMULA_MINB: Byte := 13
  const ATTR_FORMULA_MAXA: Byte := 14
  const ATTR_FORMULA_MAXB: Byte := 15
  const ATTR_SOULTICKS: Byte := 20
  const ATTR_SOULGAIN: Byte := 21
  const ATTR_SKILLS: Byte := 22
  const ATTR_STATS: Byte := 23
  const ATTR_ISBUFF: Byte := 26
  const ATTR_SUBID: Byte := 27
  const ATTR_ISAGGRESSIVE: Byte := 28
  const ATTR_DISABLEDEFENSE: Byte := 29
  const ATTR_SPECIALSKILLS: Byte := 30
  const ATTR_END: Byte := 254

  const SKILL_COUNT := 7
  const STAT_COUNT := 4
  const SPECIALSKILL_COUNT := 6

  const CONDITION_MUTED := 0x1_0000
  const CONDITIONID_DEFAULT := -1
  const CONDITIONID_COMBAT := 0

  /** The members every condition has. */
  datatype Base = Base(ty: nat, id: int, ticks: int, isBuff: bool, subId: nat, aggressive: bool)

  /** The serialized members of the subclass; floats are kept as their four raw bytes.
      The three counters are the positions at which the next array entry is read. */
  datatype Extra =
    | Generic
    | Regeneration(healthTicks: nat, healthGain: nat, manaTicks: nat, manaGain: nat)
    | Soul(soulGain: nat, soulTicks: nat)
    | Speed(speedDelta: int, mina: nat, minb: nat, maxa: nat, maxb: nat)
    | Attributes(skills: seq<int>, stats: seq<int>, disableDefense: bool, special: seq<int>,
                 currentSkill: nat, currentStat: nat, currentSpecial: nat)

  datatype Record = Record(base: Base, extra: Extra)

  function Zeros(n: nat): (s: seq<int>)
    ensures |s| == n
  {
    seq(n, _ => 0)
  }

  /** The subclass the factory picks for a type, with its default members; None for an unknown type. */
  function FreshExtra(ty: nat): Option<Extra> {
    if ty == 0x80 || ty == 0x200 || ty == 0x400 || ty == 0x1000 || ty == 0x1_0000 || ty == 0x2_0000
      || ty == 0x4_0000 || ty == 0x80_0000 || ty == 0x100_0000 || ty == 0x200_0000 || ty == 0x400_0000 then Some(Generic)
    else if ty == 0x10 || ty == 0x20 then Some(Speed(0, 0, 0, 0, 0))
    else if ty == 0x2000 then Some(Regeneration(1000, 0, 1000, 0))
    else if ty == 0x4000 then Some(Soul(0, 0))
    else if ty == 0x8_0000 then
      Some(Attributes(Zeros(SKILL_COUNT), Zeros(STAT_COUNT), false, Zeros(SPECIALSKILL_COUNT), 0, 0, 0))
    else None
  }

  predicate Word32(v: nat) { v < 0x1_0000_0000 }

  predicate Int32(v: int) { -0x8000_0000 <= v < 0x8000_0000 }

  predicate WellFormedBase(b: Base) {
    Word32(b.ty) && -128 <= b.id < 128 && Int32(b.ticks) && Word32(b.subId)
  }

  predicate WellFormedExtra(e: Extra) {
    match e
    case Generic => true
    case Regeneration(a, b, c, d) => Word32(a) && Word32(b) && Word32(c) && Word32(d)
    case Soul(a, b) => Word32(a) && Word32(b)
    case Speed(v, a, b, c, d) => Int32(v) && Word32(a) && Word32(b) && Word32(c) && Word32(d)
    case Attributes(skills, stats, _, special, _, _, _) =>
      && |skills| == SKILL_COUNT && |stats| == STAT_COUNT && |special| == SPECIALSKILL_COUNT
      && (forall v <- skills :: Int32(v)) && (forall v <- stats :: Int32(v)) && (forall v <- special :: Int32(v))
  }

  /** A condition object: its members fit their C types, and its class is the one its type names. */
  predicate WellFormed(c: Record) {
    && WellFormedBase(c.base) && WellFormedExtra(c.extra)
    && match FreshExtra(c.base.ty)
       case None => false
       case Some(Generic) => c.extra.Generic?
       case Some(Regeneration(_, _, _, _)) => c.extra.Regeneration?
       case Some(Soul(_, _)) => c.extra.Soul?
       case Some(Speed(_, _, _, _, _)) => c.extra.Speed?
       case Some(Attributes(_, _, _, _, _, _, _)) => c.extra.Attributes?
  }

  predicate Persistent(b: Base) {
    b.ticks != -1 && (b.id == CONDITIONID_DEFAULT || b.id == CONDITIONID_COMBAT || b.ty == CONDITION_MUTED)
  }

  // ---------------------------------------------------------------------
  // Writing
  // ---------------------------------------------------------------------

  function BoolByte(b: bool): Byte { if b then 1 else 0 }

  function U32(v: nat): seq<Byte> { ToLE(v, 4) }

  function I32(v: int): seq<Byte> { ToLE(ToUnsigned(v, 4), 4) }

  function BaseBytes(b: Base): seq<Byte> {
    [ATTR_TYPE] + U32(b.ty) + [ATTR_ID] + I32(b.id) + [ATTR_TICKS] + I32(b.ticks)
    + [ATTR_ISBUFF, BoolByte(b.isBuff), ATTR_SUBID] + U32(b.subId) + [ATTR_ISAGGRESSIVE, BoolByte(b.aggressive)]
  }

  /** An array is written entry by entry, each under the same tag. */
  function ArrayBytes(tag: Byte, values: seq<int>): seq<Byte> {
    if values == [] then [] else [tag] + I32(values[0]) + ArrayBytes(tag, values[1..])
  }

  function Tagged(tag: Byte, v: nat): seq<Byte> { [tag] + U32(v) }

  function ExtraBytes(e: Extra): seq<Byte> {
    match e
    case Generic => []
    case Regeneration(ht, hg, mt, mg) =>
      Tagged(ATTR_HEALTHTICKS, ht) + Tagged(ATTR_HEALTHGAIN, hg) + Tagged(ATTR_MANATICKS, mt) + Tagged(ATTR_MANAGAIN, mg)
    case Soul(gain, ticks) => Tagged(ATTR_SOULGAIN, gain) + Tagged(ATTR_SOULTICKS, ticks)
    case Speed(v, mina, minb, maxa, maxb) =>
      Tagged(ATTR_SPEEDDELTA, ToUnsigned(v, 4)) + Tagged(ATTR_FORMULA_MINA, mina) + Tagged(ATTR_FORMULA_MINB, minb)
      + Tagged(ATTR_FORMULA_MAXA, maxa) + Tagged(ATTR_FORMULA_MAXB, maxb)
    case Attributes(skills, stats, disableDefense, special, _, _, _) =>
      ArrayBytes(ATTR_SKILLS, skills) + ArrayBytes(ATTR_STATS, stats)
      + [ATTR_DISABLEDEFENSE, BoolByte(disableDefense)] + ArrayBytes(ATTR_SPECIALSKILLS, special)
  }

  function Serialized(c: Record): seq<Byte> { BaseBytes(c.base) + ExtraBytes(c.extra) }

  /** The `conditions` column: only persistent conditions, each closed by an end mark. */
  function Saved(cs: seq<Record>): seq<Byte> {
    if cs == [] then []
    else (if Persistent(cs[0].base) then Serialized(cs[0]) + [ATTR_END] else []) + Saved(cs[1..])
  }

  // ---------------------------------------------------------------------
  // Reading
  // ---------------------------------------------------------------------

  /** A tag byte followed by a value of n bytes. */
  function TakeTagged(s: seq<Byte>, tag: Byte, n: nat): (r: Option<(nat, seq<Byte>)>)
    ensures r.Some? ==> r.value.0 < Pow256(n) && |r.value.1| < |s|
  {
    if s == [] || s[0] != tag then None else TakeNat(s[1..], n)
  }

  /** The factory reads the six base members in their fixed order. */
  function Create(s: seq<Byte>): (r: Option<(Record, seq<Byte>)>)
    ensures r.Some? ==> |r.value.1| < |s|
  {
    match TakeTagged(s, ATTR_TYPE, 4) case None => None case Some((ty, s1)) =>
    match TakeTagged(s1, ATTR_ID, 4) case None => None case Some((id, s2)) =>
    match TakeTagged(s2, ATTR_TICKS, 4) case None => None case Some((ticks, s3)) =>
    match TakeTagged(s3, ATTR_ISBUFF, 1) case None => None case Some((buff, s4)) =>
    match TakeTagged(s4, ATTR_SUBID, 4) case None => None case Some((subId, s5)) =>
    match TakeTagged(s5, ATTR_ISAGGRESSIVE, 1) case None => None case Some((aggressive, s6)) =>
    match FreshExtra(ty) case None => None case Some(extra) =>
    Some((Record(Base(ty, ToSigned(id % 256, 1), ToSigned(ticks, 4), buff != 0, subId, aggressive != 0), extra), s6))
  }

  datatype Outcome = Outcome(ok: bool, c: Record, rest: seq<Byte>)

  /** One tagged member. A refused member leaves the object alone and consumes nothing. */
  function ReadProp(c: Record, attr: Byte, s: seq<Byte>): (r: Outcome)
    ensures |r.rest| <= |s|
    ensures r.ok ==> ArraysFit(r.c.extra) || !ArraysFit(c.extra)
  {
    var refused := Outcome(false, c, s);
    var e := c.extra;
    if e.Regeneration? && ATTR_HEALTHTICKS <= attr <= ATTR_MANAGAIN then
      match TakeNat(s, 4) case None => refused case Some((v, rest)) =>
      Outcome(true, c.(extra :=
        if attr == ATTR_HEALTHTICKS then e.(healthTicks := v)
        else if attr == ATTR_HEALTHGAIN then e.(healthGain := v)
        else if attr == ATTR_MANATICKS then e.(manaTicks := v)
        else e.(manaGain := v)), rest)
    else if e.Soul? && (attr == ATTR_SOULGAIN || attr == ATTR_SOULTICKS) then
      match TakeNat(s, 4) case None => refused case Some((v, rest)) =>
      Outcome(true, c.(extra := if attr == ATTR_SOULGAIN then e.(soulGain := v) else e.(soulTicks := v)), rest)
    else if e.Speed? && ATTR_SPEEDDELTA <= attr <= ATTR_FORMULA_MAXB then
      match TakeNat(s, 4) case None => refused case Some((v, rest)) =>
      Outcome(true, c.(extra :=
        if attr == ATTR_SPEEDDELTA then e.(speedDelta := ToSigned(v, 4))
        else if attr == ATTR_FORMULA_MINA then e.(mina := v)
        else if attr == ATTR_FORMULA_MINB then e.(minb := v)
        else if attr == ATTR_FORMULA_MAXA then e.(maxa := v)
        else e.(maxb := v)), rest)
    else if e.Attributes? && attr == ATTR_SKILLS then
      if e.currentSkill >= |e.skills| then refused else
      match TakeNat(s, 4) case None => refused case Some((v, rest)) =>
      Outcome(true, c.(extra := e.(skills := e.skills[e.currentSkill := ToSigned(v, 4)],
                                   currentSkill := e.currentSkill + 1)), rest)
    else if e.Attributes? && attr == ATTR_SPECIALSKILLS then
      if e.currentSpecial >= |e.special| then refused else
      match TakeNat(s, 4) case None => refused case Some((v, rest)) =>
      Outcome(true, c.(extra := e.(special := e.special[e.currentSpecial := ToSigned(v, 4)],
                                   currentSpecial := e.currentSpecial + 1)), rest)
    else if e.Attributes? && attr == ATTR_STATS then
      if e.currentStat >= |e.stats| then refused else
      match TakeNat(s, 4) case None => refused case Some((v, rest)) =>
      Outcome(true, c.(extra := e.(stats := e.stats[e.currentStat := ToSigned(v, 4)],
                                   currentStat := e.currentStat + 1)), rest)
    else if e.Attributes? && attr == ATTR_DISABLEDEFENSE then
      match TakeNat(s, 1) case None => refused case Some((v, rest)) =>
      Outcome(true, c.(extra := e.(disableDefense := v != 0)), rest)
    else ReadBaseProp(c, attr, s)
  }

  predicate ArraysFit(e: Extra) {
    e.Attributes? ==> |e.skills| == SKILL_COUNT && |e.stats| == STAT_COUNT && |e.special| == SPECIALSKILL_COUNT
  }

  function ReadBaseProp(c: Record, attr: Byte, s: seq<Byte>): (r: Outcome)
    ensures |r.rest| <= |s| && r.c.extra == c.extra
  {
    var refused := Outcome(false, c, s);
    if attr == ATTR_TYPE then
      match TakeNat(s, 4) case None => refused case Some((v, rest)) => Outcome(true, c.(base := c.base.(ty := v)), rest)
    else if attr == ATTR_ID then
      match TakeNat(s, 4) case None => refused case Some((v, rest)) =>
      Outcome(true, c.(base := c.base.(id := ToSigned(v % 256, 1))), rest)
    else if attr == ATTR_TICKS then
      match TakeNat(s, 4) case None => refused case Some((v, rest)) =>
      Outcome(true, c.(base := c.base.(ticks := ToSigned(v, 4))), rest)
    else if attr == ATTR_ISBUFF then
      match TakeNat(s, 1) case None => refused case Some((v, rest)) =>
      Outcome(true, c.(base := c.base.(isBuff := v != 0)), rest)
    else if attr == ATTR_SUBID then
      match TakeNat(s, 4) case None => refused case Some((v, rest)) =>
      Outcome(true, c.(base := c.base.(subId := v)), rest)
    else if attr == ATTR_ISAGGRESSIVE then
      match TakeNat(s, 1) case None => refused case Some((v, rest)) =>
      Outcome(true, c.(base := c.base.(aggressive := v != 0)), rest)
    else if attr == ATTR_END then Outcome(true, c, s)
    else refused
  }

  /** Members up to the end mark, or up to the end of the bytes. */
  function ReadProps(c: Record, s: seq<Byte>): (r: Outcome)
    ensures |r.rest| <= |s|
    decreases |s|
  {
    if s == [] then Outcome(true, c, s)
    else if s[0] == ATTR_END then Outcome(true, c, s[1..])
    else
      var r := ReadProp(c, s[0], s[1..]);
      if r.ok then ReadProps(r.c, r.rest) else r
  }

  /** The load loop: a refused condition is dropped, and reading goes on where it stopped. */
  function Load(s: seq<Byte>, stored: seq<Record>): seq<Record>
    decreases |s|
  {
    match Create(s)
    case None => stored
    case Some((c, rest)) =>
      var r := ReadProps(c, rest);
      Load(r.rest, if r.ok then [r.c] + stored else stored)
  }

  // ---------------------------------------------------------------------
  // The round trip
  // ---------------------------------------------------------------------

  /** What a condition is after loading: itself, with every array read to its end. */
  function Reloaded(c: Record): Record {
    if c.extra.Attributes? then
      c.(extra := c.extra.(currentSkill := SKILL_COUNT, currentStat := STAT_COUNT, currentSpecial := SPECIALSKILL_COUNT))
    else c
  }

  function PersistentReversed(cs: seq<Record>): seq<Record> {
    if cs == [] then []
    else PersistentReversed(cs[1..]) + (if Persistent(cs[0].base) then [Reloaded(cs[0])] else [])
  }

  lemma TaggedRoundTrip(tag: Byte, v: nat, n: nat, rest: seq<Byte>)
    requires v < Pow256(n)
    ensures TakeTagged([tag] + ToLE(v, n) + rest, tag, n) == Some((v, rest))
  {
    hide ToLE, FromLE, Pow256;
    TakeNatOfBytes(v, n, rest);
    assert ([tag] + ToLE(v, n) + rest)[1..] == ToLE(v, n) + rest;
  }

  lemma TaggedByte(tag: Byte, v: Byte, rest: seq<Byte>)
    ensures TakeTagged([tag, v] + rest, tag, 1) == Some((v, rest))
  {
    hide ToLE, FromLE, Pow256;
    TakeByte(v, rest);
    assert ([tag, v] + rest)[1..] == [v] + rest;
  }

  lemma IdRoundTrip(id: int)
    requires -128 <= id < 128
    ensures ToSigned(ToUnsigned(id, 4) % 256, 1) == id
  {
    WordSizes();
  }

  lemma Int32RoundTrip(v: int)
    requires Int32(v)
    ensures ToSigned(ToUnsigned(v, 4), 4) == v
  {
    WordSizes();
    SignedRoundTrip(v, 4);
  }

  lemma CreateRoundTrip(b: Base, rest: seq<Byte>)
    requires WellFormedBase(b) && FreshExtra(b.ty).Some?
    ensures Create(BaseBytes(b) + rest) == Some((Record(b, FreshExtra(b.ty).value), rest))
  {
    hide TakeTagged, ToUnsigned, ToSigned, FreshExtra, ToLE, Pow256;
    WordSizes();
    IdRoundTrip(b.id);
    Int32RoundTrip(b.ticks);
    var s6 := rest;
    var s5 := [ATTR_ISAGGRESSIVE, BoolByte(b.aggressive)] + s6;
    var s4 := [ATTR_SUBID] + U32(b.subId) + s5;
    var s3 := [ATTR_ISBUFF, BoolByte(b.isBuff)] + s4;
    var s2 := [ATTR_TICKS] + I32(b.ticks) + s3;
    var s1 := [ATTR_ID] + I32(b.id) + s2;
    var s0 := [ATTR_TYPE] + U32(b.ty) + s1;
    assert BaseBytes(b) + rest == s0;
    TaggedRoundTrip(ATTR_TYPE, b.ty, 4, s1);
    TaggedRoundTrip(ATTR_ID, ToUnsigned(b.id, 4), 4, s2);
    TaggedRoundTrip(ATTR_TICKS, ToUnsigned(b.ticks, 4), 4, s3);
    TaggedByte(ATTR_ISBUFF, BoolByte(b.isBuff), s4);
    TaggedRoundTrip(ATTR_SUBID, b.subId, 4, s5);
    TaggedByte(ATTR_ISAGGRESSIVE, BoolByte(b.aggressive), s6);
  }

  /** Reading one written member: the rest of the stream is read into the changed object. */
  lemma PropRoundTrip(c: Record, tag: Byte, v: nat, rest: seq<Byte>, c': Record)
    requires tag != ATTR_END && Word32(v)
    requires TakeNat(ToLE(v, 4) + rest, 4) == Some((v, rest)) ==>
               ReadProp(c, tag, ToLE(v, 4) + rest) == Outcome(true, c', rest)
    ensures ReadProps(c, [tag] + ToLE(v, 4) + rest) == ReadProps(c', rest)
  {
    hide ToLE, FromLE, Pow256, ReadProp, TakeNat;
    WordSizes();
    TakeNatOfBytes(v, 4, rest);
    var s := [tag] + ToLE(v, 4) + rest;
    assert s[1..] == ToLE(v, 4) + rest;
  }

  lemma RegenerationRoundTrip(c: Record, e: Extra, rest: seq<Byte>)
    requires c.extra.Regeneration? && e.Regeneration? && WellFormedExtra(e)
    ensures ReadProps(c, ExtraBytes(e) + rest) == ReadProps(c.(extra := e), rest)
  {
    hide ReadProps, TakeNat, ToLE, Pow256;
    var s3 := [ATTR_MANAGAIN] + U32(e.manaGain) + rest;
    var s2 := [ATTR_MANATICKS] + U32(e.manaTicks) + s3;
    var s1 := [ATTR_HEALTHGAIN] + U32(e.healthGain) + s2;
    assert ExtraBytes(e) + rest == [ATTR_HEALTHTICKS] + U32(e.healthTicks) + s1;
    var c1 := c.(extra := c.extra.(healthTicks := e.healthTicks));
    var c2 := c1.(extra := c1.extra.(healthGain := e.healthGain));
    var c3 := c2.(extra := c2.extra.(manaTicks := e.manaTicks));
    PropRoundTrip(c, ATTR_HEALTHTICKS, e.healthTicks, s1, c1);
    PropRoundTrip(c1, ATTR_HEALTHGAIN, e.healthGain, s2, c2);
    PropRoundTrip(c2, ATTR_MANATICKS, e.manaTicks, s3, c3);
    PropRoundTrip(c3, ATTR_MANAGAIN, e.manaGain, rest, c.(extra := e));
  }

  lemma SoulRoundTrip(c: Record, e: Extra, rest: seq<Byte>)
    requires c.extra.Soul? && e.Soul? && WellFormedExtra(e)
    ensures ReadProps(c, ExtraBytes(e) + rest) == ReadProps(c.(extra := e), rest)
  {
    hide ReadProps, TakeNat, ToLE, Pow256;
    var s1 := [ATTR_SOULTICKS] + U32(e.soulTicks) + rest;
    assert ExtraBytes(e) + rest == [ATTR_SOULGAIN] + U32(e.soulGain) + s1;
    var c1 := c.(extra := c.extra.(soulGain := e.soulGain));
    PropRoundTrip(c, ATTR_SOULGAIN, e.soulGain, s1, c1);
    PropRoundTrip(c1, ATTR_SOULTICKS, e.soulTicks, rest, c.(extra := e));
  }

  lemma SpeedRoundTrip(c: Record, e: Extra, rest: seq<Byte>)
    requires c.extra.Speed? && e.Speed? && WellFormedExtra(e)
    ensures ReadProps(c, ExtraBytes(e) + rest) == ReadProps(c.(extra := e), rest)
  {
    hide ReadProps, TakeNat, ToLE, Pow256, ToUnsigned, ToSigned;
    var delta := ToUnsigned(e.speedDelta, 4);
    WordSizes();
    Int32RoundTrip(e.speedDelta);
    var s4 := [ATTR_FORMULA_MAXB] + U32(e.maxb) + rest;
    var s3 := [ATTR_FORMULA_MAXA] + U32(e.maxa) + s4;
    var s2 := [ATTR_FORMULA_MINB] + U32(e.minb) + s3;
    var s1 := [ATTR_FORMULA_MINA] + U32(e.mina) + s2;
    assert ExtraBytes(e) + rest == [ATTR_SPEEDDELTA] + ToLE(delta, 4) + s1;
    var c1 := c.(extra := c.extra.(speedDelta := e.speedDelta));
    var c2 := c1.(extra := c1.extra.(mina := e.mina));
    var c3 := c2.(extra := c2.extra.(minb := e.minb));
    var c4 := c3.(extra := c3.extra.(maxa := e.maxa));
    PropRoundTrip(c, ATTR_SPEEDDELTA, delta, s1, c1);
    PropRoundTrip(c1, ATTR_FORMULA_MINA, e.mina, s2, c2);
    PropRoundTrip(c2, ATTR_FORMULA_MINB, e.minb, s3, c3);
    PropRoundTrip(c3, ATTR_FORMULA_MAXA, e.maxa, s4, c4);
    PropRoundTrip(c4, ATTR_FORMULA_MAXB, e.maxb, rest, c.(extra := e));
  }

  /** The i-th skill onwards, written one by one, fills the array from its i-th entry. */
  lemma {:induction false} SkillsRoundTrip(c: Record, target: seq<int>, rest: seq<Byte>)
    requires c.extra.Attributes? && c.extra.currentSkill <= |target| == |c.extra.skills|
    requires c.extra.skills[..c.extra.currentSkill] == target[..c.extra.currentSkill]
    requires forall v <- target :: Int32(v)
    ensures ReadProps(c, ArrayBytes(ATTR_SKILLS, target[c.extra.currentSkill..]) + rest)
         == ReadProps(c.(extra := c.extra.(skills := target, currentSkill := |target|)), rest)
    decreases |target| - c.extra.currentSkill
  {
    hide ReadProps, TakeNat, ToLE, Pow256, ToUnsigned, ToSigned;
    var e := c.extra;
    var i := e.currentSkill;
    if i == |target| {
      assert e.skills == e.skills[..i] == target;
      assert ArrayBytes(ATTR_SKILLS, target[i..]) + rest == rest;
    } else {
      var v := ToUnsigned(target[i], 4);
      WordSizes();
      Int32RoundTrip(target[i]);
      var c1 := c.(extra := e.(skills := e.skills[i := target[i]], currentSkill := i + 1));
      var s1 := ArrayBytes(ATTR_SKILLS, target[i + 1..]) + rest;
      assert ArrayBytes(ATTR_SKILLS, target[i..]) + rest == [ATTR_SKILLS] + ToLE(v, 4) + s1 by {
        assert target[i..][1..] == target[i + 1..];
      }
      PropRoundTrip(c, ATTR_SKILLS, v, s1, c1);
      SkillsRoundTrip(c1, target, rest);
    }
  }

  lemma {:induction false} StatsRoundTrip(c: Record, target: seq<int>, rest: seq<Byte>)
    requires c.extra.Attributes? && c.extra.currentStat <= |target| == |c.extra.stats|
    requires c.extra.stats[..c.extra.currentStat] == target[..c.extra.currentStat]
    requires forall v <- target :: Int32(v)
    ensures ReadProps(c, ArrayBytes(ATTR_STATS, target[c.extra.currentStat..]) + rest)
         == ReadProps(c.(extra := c.extra.(stats := target, currentStat := |target|)), rest)
    decreases |target| - c.extra.currentStat
  {
    hide ReadProps, TakeNat, ToLE, Pow256, ToUnsigned, ToSigned;
    var e := c.extra;
    var i := e.currentStat;
    if i == |target| {
      assert e.stats == e.stats[..i] == target;
      assert ArrayBytes(ATTR_STATS, target[i..]) + rest == rest;
    } else {
      var v := ToUnsigned(target[i], 4);
      WordSizes();
      Int32RoundTrip(target[i]);
      var c1 := c.(extra := e.(stats := e.stats[i := target[i]], currentStat := i + 1));
      var s1 := ArrayBytes(ATTR_STATS, target[i + 1..]) + rest;
      assert ArrayBytes(ATTR_STATS, target[i..]) + rest == [ATTR_STATS] + ToLE(v, 4) + s1 by {
        assert target[i..][1..] == target[i + 1..];
      }
      PropRoundTrip(c, ATTR_STATS, v, s1, c1);
      StatsRoundTrip(c1, target, rest);
    }
  }

  lemma {:induction false} SpecialSkillsRoundTrip(c: Record, target: seq<int>, rest: seq<Byte>)
    requires c.extra.Attributes? && c.extra.currentSpecial <= |target| == |c.extra.special|
    requires c.extra.special[..c.extra.currentSpecial] == target[..c.extra.currentSpecial]
    requires forall v <- target :: Int32(v)
    ensures ReadProps(c, ArrayBytes(ATTR_SPECIALSKILLS, target[c.extra.currentSpecial..]) + rest)
         == ReadProps(c.(extra := c.extra.(special := target, currentSpecial := |target|)), rest)
    decreases |target| - c.extra.currentSpecial
  {
    hide ReadProps, TakeNat, ToLE, Pow256, ToUnsigned, ToSigned;
    var e := c.extra;
    var i := e.currentSpecial;
    if i == |target| {
      assert e.special == e.special[..i] == target;
      assert ArrayBytes(ATTR_SPECIALSKILLS, target[i..]) + rest == rest;
    } else {
      var v := ToUnsigned(target[i], 4);
      WordSizes();
      Int32RoundTrip(target[i]);
      var c1 := c.(extra := e.(special := e.special[i := target[i]], currentSpecial := i + 1));
      var s1 := ArrayBytes(ATTR_SPECIALSKILLS, target[i + 1..]) + rest;
      assert ArrayBytes(ATTR_SPECIALSKILLS, target[i..]) + rest == [ATTR_SPECIALSKILLS] + ToLE(v, 4) + s1 by {
        assert target[i..][1..] == target[i + 1..];
      }
      PropRoundTrip(c, ATTR_SPECIALSKILLS, v, s1, c1);
      SpecialSkillsRoundTrip(c1, target, rest);
    }
  }

  lemma DefenseRoundTrip(c: Record, b: bool, rest: seq<Byte>)
    requires c.extra.Attributes?
    ensures ReadProps(c, [ATTR_DISABLEDEFENSE, BoolByte(b)] + rest)
         == ReadProps(c.(extra := c.extra.(disableDefense := b)), rest)
  {
    hide TakeNat, ToLE, Pow256;
    TakeByte(BoolByte(b), rest);
    var s := [ATTR_DISABLEDEFENSE, BoolByte(b)] + rest;
    assert s[1..] == [BoolByte(b)] + rest;
  }

  lemma AttributesRoundTrip(base: Base, e: Extra, rest: seq<Byte>)
    requires e.Attributes? && WellFormedExtra(e)
    ensures var zero := Attributes(Zeros(SKILL_COUNT), Zeros(STAT_COUNT), false, Zeros(SPECIALSKILL_COUNT), 0, 0, 0);
            ReadProps(Record(base, zero), ExtraBytes(e) + rest) == ReadProps(Reloaded(Record(base, e)), rest)
  {
    hide ReadProps, ArrayBytes;
    var zero := Attributes(Zeros(SKILL_COUNT), Zeros(STAT_COUNT), false, Zeros(SPECIALSKILL_COUNT), 0, 0, 0);
    var c := Record(base, zero);
    var s3 := ArrayBytes(ATTR_SPECIALSKILLS, e.special) + rest;
    var s2 := [ATTR_DISABLEDEFENSE, BoolByte(e.disableDefense)] + s3;
    var s1 := ArrayBytes(ATTR_STATS, e.stats) + s2;
    assert ExtraBytes(e) + rest == ArrayBytes(ATTR_SKILLS, e.skills) + s1;
    assert e.skills[0..] == e.skills && e.stats[0..] == e.stats && e.special[0..] == e.special;
    var c1 := c.(extra := zero.(skills := e.skills, currentSkill := SKILL_COUNT));
    var c2 := c1.(extra := c1.extra.(stats := e.stats, currentStat := STAT_COUNT));
    var c3 := c2.(extra := c2.extra.(disableDefense := e.disableDefense));
    SkillsRoundTrip(c, e.skills, s1);
    StatsRoundTrip(c1, e.stats, s2);
    DefenseRoundTrip(c2, e.disableDefense, s3);
    SpecialSkillsRoundTrip(c3, e.special, rest);
  }

  /** One written condition, followed by its end mark and anything, is read back whole. */
  lemma RecordRoundTrip(c: Record, rest: seq<Byte>)
    requires WellFormed(c)
    ensures var s := Serialized(c) + [ATTR_END] + rest;
            && Create(s).Some?
            && ReadProps(Create(s).value.0, Create(s).value.1) == Outcome(true, Reloaded(c), rest)
  {
    hide Create, BaseBytes;
    var tail := ExtraBytes(c.extra) + ([ATTR_END] + rest);
    assert Serialized(c) + [ATTR_END] + rest == BaseBytes(c.base) + tail;
    CreateRoundTrip(c.base, tail);
    ExtraRoundTrip(c, [ATTR_END] + rest);
    assert ([ATTR_END] + rest)[1..] == rest;
  }

  lemma ExtraRoundTrip(c: Record, rest: seq<Byte>)
    requires WellFormed(c)
    ensures ReadProps(Record(c.base, FreshExtra(c.base.ty).value), ExtraBytes(c.extra) + rest)
         == ReadProps(Reloaded(c), rest)
  {
    hide ReadProps, Zeros, ArrayBytes;
    var fresh' := Record(c.base, FreshExtra(c.base.ty).value);
    match c.extra
    case Generic => assert ExtraBytes(c.extra) + rest == rest;
    case Regeneration(_, _, _, _) => RegenerationRoundTrip(fresh', c.extra, rest);
    case Soul(_, _) => SoulRoundTrip(fresh', c.extra, rest);
    case Speed(_, _, _, _, _) => SpeedRoundTrip(fresh', c.extra, rest);
    case Attributes(_, _, _, _, _, _, _) => AttributesRoundTrip(c.base, c.extra, rest);
  }

  /** Loading the saved column gives exactly the persistent conditions, in reverse order, and reads
      every byte: what is left for the next condition is the suffix that was there anyway. */
  lemma {:induction false} BlobRoundTrip(cs: seq<Record>, stored: seq<Record>, rest: seq<Byte>)
    requires forall c <- cs :: WellFormed(c)
    ensures Load(Saved(cs) + rest, stored) == Load(rest, PersistentReversed(cs) + stored)
    decreases |cs|
  {
    hide Serialized, Create, ReadProps, WellFormed, Persistent;
    if cs == [] {
      assert Saved(cs) + rest == rest && PersistentReversed(cs) + stored == stored;
    } else {
      var c := cs[0];
      var tail := Saved(cs[1..]) + rest;
      if Persistent(c.base) {
        assert Saved(cs) + rest == Serialized(c) + [ATTR_END] + tail;
        RecordRoundTrip(c, tail);
        BlobRoundTrip(cs[1..], [Reloaded(c)] + stored, rest);
        assert PersistentReversed(cs[1..]) + ([Reloaded(c)] + stored) == PersistentReversed(cs) + stored;
      } else {
        assert Saved(cs) + rest == tail;
        BlobRoundTrip(cs[1..], stored, rest);
        assert PersistentReversed(cs) == PersistentReversed(cs[1..]);
      }
    }
  }

  lemma ColumnRoundTrip(cs: seq<Record>)
    requires forall c <- cs :: WellFormed(c)
    ensures Load(Saved(cs), []) == PersistentReversed(cs)
  {
    hide Saved, PersistentReversed, WellFormed;
    BlobRoundTrip(cs, [], []);
    assert Saved(cs) + [] == Saved(cs) && PersistentReversed(cs) + [] == PersistentReversed(cs);
  }

  // ---------------------------------------------------------------------
  // The condition objects
  // ---------------------------------------------------------------------

  class Condition {
    var ty: nat
    var id: int
    var ticks: int
    var isBuff: bool
    var subId: nat
    var aggressive: bool
    var extra: Extra

    constructor (r: Record)
      ensures Value() == r
    {
      ty, id, ticks, isBuff := r.base.ty, r.base.id, r.base.ticks, r.base.isBuff;
      subId, aggressive, extra := r.base.subId, r.base.aggressive, r.extra;
    }

    function Value(): Record
      reads this
    {
      Record(Base(ty, id, ticks, isBuff, subId, aggressive), extra)
    }

    predicate IsPersistent()
      reads this
      ensures IsPersistent() == Persistent(Value().base)
    {
      if ticks == -1 then false
      else if !(id == CONDITIONID_DEFAULT || id == CONDITIONID_COMBAT || ty == CONDITION_MUTED) then false
      else true
    }

    method WriteArray(stream: PropWriteStream, tag: Byte, values: seq<int>)
      modifies stream
      ensures stream.buffer == old(stream.buffer) + ArrayBytes(tag, values)
    {
      hide ToLE, ToUnsigned, Pow256;
      var i := 0;
      while i < |values|
        invariant i <= |values|
        invariant stream.buffer + ArrayBytes(tag, values[i..]) == old(stream.buffer) + ArrayBytes(tag, values)
      {
        assert values[i..][1..] == values[i + 1..];
        stream.WriteByte(tag);
        stream.Write(ToUnsigned(values[i], 4), 4);
        i := i + 1;
      }
      assert stream.buffer + [] == stream.buffer;
    }

    method WriteTagged(stream: PropWriteStream, tag: Byte, v: nat, ghost start: seq<Byte>, ghost written: seq<Byte>)
      requires stream.buffer == start + written
      modifies stream
      ensures stream.buffer == start + (written + Tagged(tag, v))
    {
      hide ToLE;
      stream.WriteByte(tag);
      stream.Write(v, 4);
      Assoc(start + written, [tag], U32(v));
      Assoc(start, written, [tag] + U32(v));
    }

    method Serialize(stream: PropWriteStream)
      modifies stream
      ensures stream.buffer == old(stream.buffer) + Serialized(Value())
    {
      hide BaseBytes, ArrayBytes, Tagged, ExtraBytes;
      WriteBase(stream);
      SerializeExtra(stream);
      Assoc(old(stream.buffer), BaseBytes(Value().base), ExtraBytes(extra));
    }

    method SerializeExtra(stream: PropWriteStream)
      modifies stream
      ensures stream.buffer == old(stream.buffer) + ExtraBytes(extra)
    {
      hide ArrayBytes, Tagged, ToUnsigned;
      ghost var b := stream.buffer;
      assert b == b + [];
      match extra {
        case Generic =>
        case Regeneration(ht, hg, mt, mg) =>
          WriteTagged(stream, ATTR_HEALTHTICKS, ht, b, []);
          ghost var w1 := Tagged(ATTR_HEALTHTICKS, ht);
          assert [] + w1 == w1;
          WriteTagged(stream, ATTR_HEALTHGAIN, hg, b, w1);
          WriteTagged(stream, ATTR_MANATICKS, mt, b, w1 + Tagged(ATTR_HEALTHGAIN, hg));
          WriteTagged(stream, ATTR_MANAGAIN, mg, b, w1 + Tagged(ATTR_HEALTHGAIN, hg) + Tagged(ATTR_MANATICKS, mt));
        case Soul(gain, soulTicks) =>
          WriteTagged(stream, ATTR_SOULGAIN, gain, b, []);
          ghost var w1 := Tagged(ATTR_SOULGAIN, gain);
          assert [] + w1 == w1;
          WriteTagged(stream, ATTR_SOULTICKS, soulTicks, b, w1);
        case Speed(v, mina, minb, maxa, maxb) =>
          WriteTagged(stream, ATTR_SPEEDDELTA, ToUnsigned(v, 4), b, []);
          ghost var w1 := Tagged(ATTR_SPEEDDELTA, ToUnsigned(v, 4));
          assert [] + w1 == w1;
          ghost var w2 := w1 + Tagged(ATTR_FORMULA_MINA, mina);
          ghost var w3 := w2 + Tagged(ATTR_FORMULA_MINB, minb);
          WriteTagged(stream, ATTR_FORMULA_MINA, mina, b, w1);
          WriteTagged(stream, ATTR_FORMULA_MINB, minb, b, w2);
          WriteTagged(stream, ATTR_FORMULA_MAXA, maxa, b, w3);
          WriteTagged(stream, ATTR_FORMULA_MAXB, maxb, b, w3 + Tagged(ATTR_FORMULA_MAXA, maxa));
        case Attributes(skills, stats, disableDefense, special, _, _, _) =>
          ghost var w1 := ArrayBytes(ATTR_SKILLS, skills);
          ghost var w2 := w1 + ArrayBytes(ATTR_STATS, stats);
          ghost var flag := [ATTR_DISABLEDEFENSE, BoolByte(disableDefense)];
          WriteArray(stream, ATTR_SKILLS, skills);
          WriteArray(stream, ATTR_STATS, stats);
          Assoc(b, w1, ArrayBytes(ATTR_STATS, stats));
          WriteFlag(stream, disableDefense);
          Assoc(b, w2, flag);
          WriteArray(stream, ATTR_SPECIALSKILLS, special);
          Assoc(b, w2 + flag, ArrayBytes(ATTR_SPECIALSKILLS, special));
      }
    }

    method WriteFlag(stream: PropWriteStream, flag: bool)
      modifies stream
      ensures stream.buffer == old(stream.buffer) + [ATTR_DISABLEDEFENSE, BoolByte(flag)]
    {
      stream.WriteByte(ATTR_DISABLEDEFENSE);
      stream.WriteByte(BoolByte(flag));
    }

    method WriteBase(stream: PropWriteStream)
      modifies stream
      ensures stream.buffer == old(stream.buffer) + BaseBytes(Value().base)
    {
      hide ToLE, ToUnsigned, Pow256;
      stream.WriteByte(ATTR_TYPE);
      stream.Write(ty, 4);
      stream.WriteByte(ATTR_ID);
      stream.Write(ToUnsigned(id, 4), 4);
      stream.WriteByte(ATTR_TICKS);
      stream.Write(ToUnsigned(ticks, 4), 4);
      stream.WriteByte(ATTR_ISBUFF);
      stream.WriteByte(BoolByte(isBuff));
      stream.WriteByte(ATTR_SUBID);
      stream.Write(subId, 4);
      stream.WriteByte(ATTR_ISAGGRESSIVE);
      stream.WriteByte(BoolByte(aggressive));
    }

    method UnserializeBaseProp(attr: Byte, stream: PropStream) returns (ok: bool)
      requires stream.Valid()
      modifies this, stream
      ensures stream.Valid()
      ensures Outcome(ok, Value(), stream.Rest()) == old(ReadBaseProp(Value(), attr, stream.Rest()))
    {
      hide TakeNat, ToSigned, FromLE, Pow256;
      if attr == ATTR_TYPE || attr == ATTR_ID || attr == ATTR_TICKS || attr == ATTR_SUBID {
        var v := stream.Read(4);
        if v == None {
          return false;
        }
        if attr == ATTR_TYPE {
          ty := v.value;
        } else if attr == ATTR_ID {
          id := ToSigned(v.value % 256, 1);
        } else if attr == ATTR_TICKS {
          ticks := ToSigned(v.value, 4);
        } else {
          subId := v.value;
        }
        return true;
      } else if attr == ATTR_ISBUFF || attr == ATTR_ISAGGRESSIVE {
        var v := stream.Read(1);
        if v == None {
          return false;
        }
        if attr == ATTR_ISBUFF {
          isBuff := v.value != 0;
        } else {
          aggressive := v.value != 0;
        }
        return true;
      }
      return attr == ATTR_END;
    }

    method UnserializeProp(attr: Byte, stream: PropStream) returns (ok: bool)
      requires stream.Valid()
      modifies this, stream
      ensures stream.Valid()
      ensures Outcome(ok, Value(), stream.Rest()) == old(ReadProp(Value(), attr, stream.Rest()))
    {
      hide TakeNat, ToSigned, FromLE, Pow256, ReadBaseProp;
      if extra.Attributes? && attr == ATTR_DISABLEDEFENSE {
        var v := stream.Read(1);
        if v == None {
          return false;
        }
        extra := extra.(disableDefense := v.value != 0);
        return true;
      }
      if extra.Attributes? &&
         ((attr == ATTR_SKILLS && extra.currentSkill >= |extra.skills|)
          || (attr == ATTR_SPECIALSKILLS && extra.currentSpecial >= |extra.special|)
          || (attr == ATTR_STATS && extra.currentStat >= |extra.stats|)) {
        return false;
      }
      if (extra.Regeneration? && ATTR_HEALTHTICKS <= attr <= ATTR_MANAGAIN)
        || (extra.Soul? && (attr == ATTR_SOULGAIN || attr == ATTR_SOULTICKS))
        || (extra.Speed? && ATTR_SPEEDDELTA <= attr <= ATTR_FORMULA_MAXB)
        || (extra.Attributes? && (attr == ATTR_SKILLS || attr == ATTR_SPECIALSKILLS || attr == ATTR_STATS)) {
        var r := stream.Read(4);
        if r == None {
          return false;
        }
        StoreWord(attr, r.value);
        return true;
      }
      ok := UnserializeBaseProp(attr, stream);
    }

    /** Stores a 32-bit member of the subclass. */
    method StoreWord(attr: Byte, v: nat)
      requires (extra.Regeneration? && ATTR_HEALTHTICKS <= attr <= ATTR_MANAGAIN)
        || (extra.Soul? && (attr == ATTR_SOULGAIN || attr == ATTR_SOULTICKS))
        || (extra.Speed? && ATTR_SPEEDDELTA <= attr <= ATTR_FORMULA_MAXB)
        || (extra.Attributes? && attr == ATTR_SKILLS && extra.currentSkill < |extra.skills|)
        || (extra.Attributes? && attr == ATTR_STATS && extra.currentStat < |extra.stats|)
        || (extra.Attributes? && attr == ATTR_SPECIALSKILLS && extra.currentSpecial < |extra.special|)
      modifies this`extra
      ensures forall s, rest :: TakeNat(s, 4) == Some((v, rest)) ==>
                Outcome(true, Value(), rest) == old(ReadProp(Value(), attr, s))
    {
      hide ToSigned, TakeNat, ReadBaseProp;
      var e := extra;
      match e {
        case Regeneration(_, _, _, _) =>
          extra := if attr == ATTR_HEALTHTICKS then e.(healthTicks := v)
                   else if attr == ATTR_HEALTHGAIN then e.(healthGain := v)
                   else if attr == ATTR_MANATICKS then e.(manaTicks := v) else e.(manaGain := v);
        case Soul(_, _) =>
          extra := if attr == ATTR_SOULGAIN then e.(soulGain := v) else e.(soulTicks := v);
        case Speed(_, _, _, _, _) =>
          extra := if attr == ATTR_SPEEDDELTA then e.(speedDelta := ToSigned(v, 4))
                   else if attr == ATTR_FORMULA_MINA then e.(mina := v)
                   else if attr == ATTR_FORMULA_MINB then e.(minb := v)
                   else if attr == ATTR_FORMULA_MAXA then e.(maxa := v) else e.(maxb := v);
        case Attributes(_, _, _, _, _, _, _) =>
          if attr == ATTR_SKILLS {
            extra := e.(skills := e.skills[e.currentSkill := ToSigned(v, 4)], currentSkill := e.currentSkill + 1);
          } else if attr == ATTR_STATS {
            extra := e.(stats := e.stats[e.currentStat := ToSigned(v, 4)], currentStat := e.currentStat + 1);
          } else {
            extra := e.(special := e.special[e.currentSpecial := ToSigned(v, 4)], currentSpecial := e.currentSpecial + 1);
          }
        case Generic =>
      }
    }

    method Unserialize(stream: PropStream) returns (ok: bool)
      requires stream.Valid()
      modifies this, stream
      ensures stream.Valid()
      ensures Outcome(ok, Value(), stream.Rest()) == old(ReadProps(Value(), stream.Rest()))
    {
      hide ReadProp;
      while true
        invariant stream.Valid()
        invariant ReadProps(Value(), stream.Rest()) == old(ReadProps(Value(), stream.Rest()))
        decreases |stream.Rest()|
      {
        ghost var before := stream.Rest();
        var attr := stream.Read(1);
        if attr == None {
          assert before == [];
          return true;
        }
        FirstByte(before);
        if attr.value == ATTR_END {
          return true;
        }
        ok := UnserializeProp(attr.value, stream);
        if !ok {
          return false;
        }
      }
    }
  }

  method ReadTagged(stream: PropStream, tag: Byte, n: nat) returns (v: Option<nat>)
    requires stream.Valid()
    modifies stream
    ensures stream.Valid()
    ensures match old(TakeTagged(stream.Rest(), tag, n))
            case None => v == None
            case Some((x, rest)) => v == Some(x) && stream.Rest() == rest
  {
    hide FromLE;
    ghost var before := stream.Rest();
    var attr := stream.Read(1);
    if attr == None {
      return None;
    }
    FirstByte(before);
    if attr.value != tag {
      return None;
    }
    v := stream.Read(n);
  }

  method CreateCondition(stream: PropStream) returns (c: Condition?)
    requires stream.Valid()
    modifies stream
    ensures stream.Valid()
    ensures match old(Create(stream.Rest()))
            case None => c == null
            case Some((r, rest)) => c != null && fresh(c) && c.Value() == r && stream.Rest() == rest
  {
    hide TakeTagged, ToSigned, FreshExtra;
    var ty := ReadTagged(stream, ATTR_TYPE, 4);
    if ty == None { return null; }
    var id := ReadTagged(stream, ATTR_ID, 4);
    if id == None { return null; }
    var ticks := ReadTagged(stream, ATTR_TICKS, 4);
    if ticks == None { return null; }
    var buff := ReadTagged(stream, ATTR_ISBUFF, 1);
    if buff == None { return null; }
    var subId := ReadTagged(stream, ATTR_SUBID, 4);
    if subId == None { return null; }
    var aggressive := ReadTagged(stream, ATTR_ISAGGRESSIVE, 1);
    if aggressive == None { return null; }
    var extra := FreshExtra(ty.value);
    if extra == None { return null; }
    c := new Condition(Record(Base(ty.value, ToSigned(id.value % 256, 1), ToSigned(ticks.value, 4),
                                   buff.value != 0, subId.value, aggressive.value != 0), extra.value));
  }

  ghost function Values(conditions: seq<Condition>): (vs: seq<Record>)
    reads conditions
    ensures |vs| == |conditions|
  {
    if conditions == [] then [] else [conditions[0].Value()] + Values(conditions[1..])
  }

  /** savePlayer's loop over the player's conditions. */
  method SaveConditions(conditions: seq<Condition>, stream: PropWriteStream)
    modifies stream
    ensures stream.buffer == old(stream.buffer) + Saved(Values(conditions))
  {
    hide Serialized;
    ghost var all := Saved(Values(conditions));
    var i := 0;
    while i < |conditions|
      invariant i <= |conditions|
      invariant stream.buffer + Saved(Values(conditions[i..])) == old(stream.buffer) + all
    {
      var condition := conditions[i];
      assert conditions[i..][1..] == conditions[i + 1..];
      if condition.IsPersistent() {
        condition.Serialize(stream);
        stream.WriteByte(ATTR_END);
      }
      i := i + 1;
    }
    assert stream.buffer + [] == stream.buffer;
  }

  lemma ValuesOfCons(c: Condition, cs: seq<Condition>)
    ensures Values([c] + cs) == [c.Value()] + Values(cs)
  {
    assert ([c] + cs)[1..] == cs;
  }

  /** loadPlayer's loop: conditions are pushed to the front of the stored list. */
  method LoadConditions(stream: PropStream) returns (stored: seq<Condition>)
    requires stream.Valid()
    modifies stream
    ensures stream.Valid()
    ensures Values(stored) == Load(old(stream.Rest()), [])
  {
    hide Create, ReadProps;
    stored := [];
    var condition := CreateCondition(stream);
    ghost var before := old(stream.Rest());
    while condition != null
      invariant stream.Valid()
      invariant fresh(set c | c in stored)
      invariant condition != null ==> fresh(condition) && condition !in stored
      invariant condition == null <==> Create(before) == None
      invariant condition != null ==> Create(before) == Some((condition.Value(), stream.Rest()))
      invariant Load(before, Values(stored)) == Load(old(stream.Rest()), [])
      decreases |before|
    {
      ghost var values := Values(stored);
      var ok := condition.Unserialize(stream);
      assert Values(stored) == values;
      if ok {
        ValuesOfCons(condition, stored);
        stored := [condition] + stored;
      }
      before := stream.Rest();
      values := Values(stored);
      condition := CreateCondition(stream);
      assert Values(stored) == values;
    }
  }
}
