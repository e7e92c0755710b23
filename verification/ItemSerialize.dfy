/** The binary form of items: attributes as tagged records, containers with their contents. */
module ItemSerialize {

  import opened Basics
  import opened ByteStream

  // ---------------------------------------------------------------------
  // Items and their attributes
  // ---------------------------------------------------------------------

  datatype IntAttr =
    | ActionId | UniqueId | Date | Weight | Attack | Defense | ExtraDefense | Armor | HitChance | ShootRange
    | Duration | DecayState | Charges | FluidType | DecayTo | AttackSpeed

  datatype StrAttr = Description | Text | Writer | Name | Article | PluralName

  /** The value of a custom attribute; a number with a fraction is its eight raw bytes. */
  datatype Value = Blank | Str(str: seq<Byte>) | Num(num: int) | Real(raw: nat) | Flag(flag: bool)

  datatype Entry = Entry(key: seq<Byte>, value: Value)

  /** The row of the item table; `duration` says whether the type gives its items a time to live. */
  datatype ItemType = ItemType(
    id: nat, known: bool, stackable: bool, fluid: bool, charges: nat, moveable: bool, container: bool, duration: bool)

  /** An item without its contents. The order of the custom attributes is that of the hash table. */
  datatype State = State(
    ty: ItemType, count: nat, ints: map<IntAttr, int>, strs: map<StrAttr, seq<Byte>>, custom: Option<seq<Entry>>)

  const FALSE_STATE := 0
  const TRUE_STATE := 1
  const PENDING_STATE := 2

  function Int(st: State, a: IntAttr): int {
    if a in st.ints then st.ints[a] else 0
  }

  function SetInt(st: State, a: IntAttr, v: int): State {
    st.(ints := st.ints[a := if a.AttackSpeed? && v < 100 then 100 else v])
  }

  /** Setting a text attribute to nothing leaves it as it was. */
  function SetStr(st: State, a: StrAttr, s: seq<Byte>): State {
    if s == [] then st else st.(strs := st.strs[a := s])
  }

  /** Where a number of pieces goes depends on the type: fluid, count or charges. */
  function SetSubType(st: State, n: nat): State {
    if st.ty.fluid then SetInt(st, FluidType, n)
    else if st.ty.stackable || st.ty.charges == 0 then st.(count := n % 256)
    else SetInt(st, Charges, n)
  }

  function SubType(st: State): int {
    if st.ty.fluid then Int(st, FluidType)
    else if st.ty.stackable || st.ty.charges == 0 then st.count
    else Int(st, Charges)
  }

  function SetActionId(st: State, n: nat): State {
    SetInt(st, ActionId, if n < 100 then 100 else n)
  }

  function LowerByte(b: Byte): Byte { if 65 <= b <= 90 then b + 32 else b }

  function Lower(s: seq<Byte>): (r: seq<Byte>)
    ensures |r| == |s|
  {
    seq(|s|, i requires 0 <= i < |s| => LowerByte(s[i]))
  }

  function Drop(es: seq<Entry>, key: seq<Byte>): seq<Entry> {
    if es == [] then [] else (if es[0].key == key then [] else [es[0]]) + Drop(es[1..], key)
  }

  function SetCustom(st: State, key: seq<Byte>, value: Value): State {
    var es := match st.custom case None => [] case Some(es) => Drop(es, Lower(key));
    st.(custom := Some(es + [Entry(Lower(key), value)]))
  }

  /** A newly created item: one piece, the charges and the time to live of its type. */
  function Fresh(ty: ItemType, duration: nat): State {
    var ints := map[];
    var ints := if ty.fluid then ints[FluidType := 0] else if !ty.stackable && ty.charges != 0 then ints[Charges := ty.charges % 0x1_0000] else ints;
    var ints := if ty.duration && duration != 0 then ints[Duration := duration] else ints;
    State(ty, 1, ints, map[], None)
  }

  // ---------------------------------------------------------------------
  // Reading
  // ---------------------------------------------------------------------

  function IntCode(code: Byte): Option<IntAttr> {
    match code
    case 16 => Some(Duration)
    case 18 => Some(Date)
    case 27 => Some(Weight)
    case 28 => Some(Attack)
    case 29 => Some(Defense)
    case 30 => Some(ExtraDefense)
    case 31 => Some(Armor)
    case 32 => Some(HitChance)
    case 33 => Some(ShootRange)
    case 35 => Some(DecayTo)
    case 38 => Some(AttackSpeed)
    case _ => None
  }

  function StrCode(code: Byte): Option<StrAttr> {
    match code
    case 6 => Some(Text)
    case 7 => Some(Description)
    case 19 => Some(Writer)
    case 24 => Some(Name)
    case 25 => Some(Article)
    case 26 => Some(PluralName)
    case _ => None
  }

  /** How many bytes a number takes. */
  function Width(a: IntAttr): nat {
    if a.HitChance? || a.ShootRange? then 1 else if a.ActionId? || a.UniqueId? || a.Charges? then 2 else 4
  }

  /** The number that a raw value stands for. */
  function Read(a: IntAttr, raw: nat): int {
    match a
    case Weight | AttackSpeed | ShootRange => raw
    case Duration => if ToSigned(raw, 4) < 0 then 0 else ToSigned(raw, 4)
    case _ => ToSigned(raw, Width(a))
  }

  /** What is skipped of attributes that belong to other classes. */
  function SkipWidth(code: Byte): nat {
    match code
    case 10 => 2
    case 14 => 1
    case 20 => 4
    case 21 => 4
    case 8 => 5
    case _ => 0
  }

  function ReadValue(s: seq<Byte>): (r: Option<(Value, seq<Byte>)>)
    ensures r.Some? ==> |r.value.1| < |s|
  {
    if s == [] then None
    else match s[0]
      case 1 => (match TakeString(s[1..]) case None => None case Some((str, rest)) => Some((Str(str), rest)))
      case 2 => (match TakeNat(s[1..], 8) case None => None case Some((v, rest)) => Some((Num(ToSigned(v, 8)), rest)))
      case 3 => (match TakeNat(s[1..], 8) case None => None case Some((v, rest)) => Some((Real(v), rest)))
      case 4 => (match TakeNat(s[1..], 1) case None => None case Some((v, rest)) => Some((Flag(v != 0), rest)))
      case _ => None
  }

  function ReadCustom(st: State, n: nat, s: seq<Byte>): (r: Option<(State, seq<Byte>)>)
    ensures r.Some? ==> |r.value.1| <= |s| && r.value.0.ty == st.ty
    decreases n
  {
    if n == 0 then Some((st, s))
    else match TakeString(s)
      case None => None
      case Some((key, rest)) =>
        match ReadValue(rest)
        case None => None
        case Some((value, rest')) => ReadCustom(SetCustom(st, key, value), n - 1, rest')
  }

  /** Reads the value of one attribute; None where the source gives up. */
  function ReadAttr(st: State, code: Byte, s: seq<Byte>): (r: Option<(State, seq<Byte>)>)
    ensures r.Some? ==> |r.value.1| <= |s| && r.value.0.ty == st.ty
  {
    if code == 15 || code == 12 then
      match TakeNat(s, 1) case None => None case Some((n, rest)) => Some((SetSubType(st, n), rest))
    else if code == 22 then
      match TakeNat(s, 2) case None => None case Some((n, rest)) => Some((SetSubType(st, n), rest))
    else if code == 4 then
      match TakeNat(s, 2) case None => None case Some((n, rest)) => Some((SetActionId(st, n), rest))
    else if code == 5 then
      match TakeNat(s, 2) case None => None
      case Some((n, rest)) => Some((if UniqueId in st.ints then st else SetInt(st, UniqueId, n), rest))
    else if code == 17 then
      match TakeNat(s, 1) case None => None
      case Some((n, rest)) => Some((if n != FALSE_STATE then SetInt(st, DecayState, PENDING_STATE) else st, rest))
    else if code == 34 then
      match TakeNat(s, 8) case None => None case Some((n, rest)) => ReadCustom(st, n, rest)
    else if StrCode(code).Some? then
      match TakeString(s) case None => None case Some((str, rest)) => Some((SetStr(st, StrCode(code).value, str), rest))
    else if IntCode(code).Some? then
      var a := IntCode(code).value;
      match TakeNat(s, Width(a)) case None => None case Some((raw, rest)) => Some((SetInt(st, a, Read(a, raw)), rest))
    else if SkipWidth(code) > 0 then
      if |s| < SkipWidth(code) then None else Some((st, s[SkipWidth(code)..]))
    else None
  }

  const CONTAINER_ITEMS: Byte := 23

  /** What reading the attributes comes to: the item, the bytes after it and, for a container, how many items follow. */
  datatype Loaded = Loaded(st: State, rest: seq<Byte>, items: nat)

  /** Reads attributes up to the end mark, the contents of a container, or the end of the data. */
  function Unserialize(st: State, s: seq<Byte>): (r: Option<Loaded>)
    ensures r.Some? ==> |r.value.rest| <= |s| && r.value.st.ty == st.ty
    decreases |s|
  {
    if s == [] then Some(Loaded(st, [], 0))
    else if s[0] == 0 then Some(Loaded(st, s[1..], 0))
    else if s[0] == CONTAINER_ITEMS && st.ty.container then
      match TakeNat(s[1..], 4) case None => None case Some((n, rest)) => Some(Loaded(st, rest, n))
    else
      match ReadAttr(st, s[0], s[1..])
      case None => None
      case Some((st', rest)) => Unserialize(st', rest)
  }

  // ---------------------------------------------------------------------
  // Writing
  // ---------------------------------------------------------------------

  /** The records an item is written as. */
  datatype Field =
    | Pieces(pieces: Byte)
    | Charged(charges: nat)
    | Action(action: nat)
    | Words(sa: StrAttr, words: seq<Byte>)
    | Number(ia: IntAttr, raw: nat)
    | Decaying(state: Byte)
    | Custom(entries: seq<Entry>)

  function CodeOfInt(a: IntAttr): Byte {
    match a
    case Duration => 16 case Date => 18 case Weight => 27 case Attack => 28 case Defense => 29 case ExtraDefense => 30
    case Armor => 31 case HitChance => 32 case ShootRange => 33 case DecayTo => 35 case AttackSpeed => 38
    case _ => 0
  }

  function CodeOfStr(a: StrAttr): Byte {
    match a
    case Text => 6 case Description => 7 case Writer => 19 case Name => 24 case Article => 25 case PluralName => 26
  }

  function ValueBytes(v: Value): seq<Byte> {
    match v
    case Blank => [0]
    case Str(str) => [1] + StringBytes(str)
    case Num(num) => [2] + ToLE(ToUnsigned(num, 8), 8)
    case Real(raw) => [3] + ToLE(raw, 8)
    case Flag(flag) => [4] + [if flag then 1 else 0]
  }

  function EntriesBytes(es: seq<Entry>): seq<Byte> {
    if es == [] then [] else StringBytes(es[0].key) + (ValueBytes(es[0].value) + EntriesBytes(es[1..]))
  }

  function FieldBytes(f: Field): seq<Byte> {
    match f
    case Pieces(n) => [15] + [n]
    case Charged(n) => [22] + ToLE(n, 2)
    case Action(n) => [4] + ToLE(n, 2)
    case Words(a, words) => [CodeOfStr(a)] + StringBytes(words)
    case Number(a, raw) => [CodeOfInt(a)] + ToLE(raw, Width(a))
    case Decaying(state) => [17] + [state]
    case Custom(es) => [34] + (ToLE(|es|, 8) + EntriesBytes(es))
  }

  function Concat(fs: seq<Field>): seq<Byte> {
    if fs == [] then [] else FieldBytes(fs[0]) + Concat(fs[1..])
  }

  function Only(c: bool, f: Field): seq<Field> { if c then [f] else [] }

  /** The low bytes of a number. */
  function Low(v: int, n: nat): (r: nat)
    ensures r < Pow256(n)
  {
    ToUnsigned(v, n)
  }

  function NumberOf(st: State, a: IntAttr): seq<Field> { Only(a in st.ints, Number(a, Low(Int(st, a), Width(a)))) }

  function WordsOf(st: State, a: StrAttr): seq<Field> {
    if a in st.strs && st.strs[a] != [] then [Words(a, st.strs[a])] else []
  }

  function PiecesOf(st: State): (n: Byte) {
    WordSizes();
    Low(SubType(st), 1)
  }

  /** The decay state is read as one byte. */
  function DecayByte(st: State): nat { Low(Int(st, DecayState), 1) }

  /** Count, charges and action id. */
  function HeadFields(st: State): seq<Field> {
    var charges, action := Low(Int(st, Charges), 2), Low(Int(st, ActionId), 2);
    Only(st.ty.stackable || st.ty.fluid, Pieces(PiecesOf(st))) +
    Only(charges != 0, Charged(charges)) +
    Only(st.ty.moveable && action != 0, Action(action))
  }

  /** What is written on the item, its time to live and its names. */
  function TextFields(st: State): seq<Field> {
    WordsOf(st, Text) +
    Only(Int(st, Date) != 0, Number(Date, Low(Int(st, Date), 4))) +
    WordsOf(st, Writer) + WordsOf(st, Description) +
    NumberOf(st, Duration) +
    Only(DecayByte(st) == TRUE_STATE, Decaying(TRUE_STATE)) +
    Only(DecayByte(st) == PENDING_STATE, Decaying(PENDING_STATE)) +
    WordsOf(st, Name) + WordsOf(st, Article) + WordsOf(st, PluralName)
  }

  function NumberFields(st: State): seq<Field> {
    NumberOf(st, Weight) + NumberOf(st, Attack) + NumberOf(st, AttackSpeed) + NumberOf(st, Defense) +
    NumberOf(st, ExtraDefense) + NumberOf(st, Armor) + NumberOf(st, HitChance) + NumberOf(st, ShootRange) +
    NumberOf(st, DecayTo)
  }

  function CustomFields(st: State): seq<Field> {
    if st.custom.Some? then [Custom(st.custom.value)] else []
  }

  /** The records of an item, in the order of writing. */
  function Fields(st: State): seq<Field> {
    HeadFields(st) + TextFields(st) + NumberFields(st) + CustomFields(st)
  }

  function Serialize(st: State): seq<Byte> { Concat(Fields(st)) }

  // ---------------------------------------------------------------------
  // Reading a record back
  // ---------------------------------------------------------------------

  /** What is left of a string that went through the stream. */
  function Clip(s: seq<Byte>): seq<Byte> { if |s| <= MAX_STRING then s else [] }

  function ClipValue(v: Value): Value { if v.Str? then Str(Clip(v.str)) else v }

  function ApplyEntries(st: State, es: seq<Entry>): State
    decreases |es|
  {
    if es == [] then st else ApplyEntries(SetCustom(st, Clip(es[0].key), ClipValue(es[0].value)), es[1..])
  }

  /** What a record does to the item that is being read. */
  function Apply(st: State, f: Field): State {
    match f
    case Pieces(n) => SetSubType(st, n)
    case Charged(n) => SetSubType(st, n)
    case Action(n) => SetActionId(st, n)
    case Words(a, words) => SetStr(st, a, Clip(words))
    case Number(a, raw) => SetInt(st, a, Read(a, raw))
    case Decaying(state) => if state != FALSE_STATE then SetInt(st, DecayState, PENDING_STATE) else st
    case Custom(es) => ApplyEntries(st, es)
  }

  function ApplyAll(st: State, fs: seq<Field>): State
    decreases |fs|
  {
    if fs == [] then st else ApplyAll(Apply(st, fs[0]), fs[1..])
  }

  predicate ValueOk(v: Value) {
    match v
    case Blank => false
    case Str(_) => true
    case Num(num) => FitsSigned(num, 8)
    case Real(raw) => raw < Pow256(8)
    case Flag(_) => true
  }

  predicate EntriesOk(es: seq<Entry>) { forall e <- es :: ValueOk(e.value) }

  predicate FieldOk(f: Field) {
    match f
    case Pieces(_) => true
    case Charged(n) => n < Pow256(2)
    case Action(n) => n < Pow256(2)
    case Words(_, _) => true
    case Number(a, raw) => CodeOfInt(a) != 0 && raw < Pow256(Width(a))
    case Decaying(_) => true
    case Custom(es) => EntriesOk(es) && |es| < Pow256(8)
  }

  lemma ReadValueBytes(v: Value, tail: seq<Byte>)
    requires ValueOk(v)
    ensures ReadValue(ValueBytes(v) + tail) == Some((ClipValue(v), tail))
  {
    hide TakeString, TakeNat, StringBytes, ToLE;
    match v
    case Str(str) =>
      Assoc([1], StringBytes(str), tail);
      Behind(1, StringBytes(str) + tail);
      StringRoundTrip(str, tail);
    case Num(num) =>
      Assoc([2], ToLE(ToUnsigned(num, 8), 8), tail);
      Behind(2, ToLE(ToUnsigned(num, 8), 8) + tail);
      TakeNatOfBytes(ToUnsigned(num, 8), 8, tail);
      SignedRoundTrip(num, 8);
    case Real(raw) =>
      Assoc([3], ToLE(raw, 8), tail);
      Behind(3, ToLE(raw, 8) + tail);
      TakeNatOfBytes(raw, 8, tail);
    case Flag(flag) =>
      var b: Byte := if flag then 1 else 0;
      Assoc([4], [b], tail);
      Behind(4, [b] + tail);
      TakeByte(b, tail);
  }

  lemma Behind(b: Byte, rest: seq<Byte>)
    ensures ([b] + rest)[0] == b && ([b] + rest)[1..] == rest && [b] + rest != []
  {
  }

  lemma {:induction false} ReadCustomBytes(st: State, es: seq<Entry>, tail: seq<Byte>)
    requires EntriesOk(es)
    ensures ReadCustom(st, |es|, EntriesBytes(es) + tail) == Some((ApplyEntries(st, es), tail))
    decreases |es|
  {
    hide ReadValue, ValueBytes, StringBytes, TakeString, SetCustom, Clip, ClipValue;
    if es == [] {
      assert EntriesBytes(es) + tail == tail;
    } else {
      var k, v, more := StringBytes(es[0].key), ValueBytes(es[0].value), EntriesBytes(es[1..]);
      Assoc(k, v + more, tail);
      Assoc(v, more, tail);
      KeyRead(es[0].key, v + (more + tail));
      ReadValueBytes(es[0].value, more + tail);
      ReadCustomBytes(SetCustom(st, Clip(es[0].key), ClipValue(es[0].value)), es[1..], tail);
    }
  }

  lemma KeyRead(key: seq<Byte>, rest: seq<Byte>)
    ensures TakeString(StringBytes(key) + rest) == Some((Clip(key), rest))
  {
    StringRoundTrip(key, rest);
  }

  /** Every record is read back with its effect. */
  lemma ReadFieldBytes(st: State, f: Field, tail: seq<Byte>)
    requires FieldOk(f)
    ensures var s := FieldBytes(f) + tail;
      && s != [] && s[0] != 0 && s[0] != CONTAINER_ITEMS
      && ReadAttr(st, s[0], s[1..]) == Some((Apply(st, f), tail))
  {
    hide ReadAttr, Apply;
    match f
    case Pieces(_) => ReadShort(st, f, tail);
    case Charged(_) => ReadShort(st, f, tail);
    case Action(_) => ReadShort(st, f, tail);
    case Decaying(_) => ReadShort(st, f, tail);
    case Words(_, _) => ReadWords(st, f, tail);
    case Number(_, _) => ReadNumber(st, f, tail);
    case Custom(_) => ReadTable(st, f, tail);
  }

  lemma ReadShort(st: State, f: Field, tail: seq<Byte>)
    requires FieldOk(f) && (f.Pieces? || f.Charged? || f.Action? || f.Decaying?)
    ensures var s := FieldBytes(f) + tail;
      && s != [] && s[0] != 0 && s[0] != CONTAINER_ITEMS
      && ReadAttr(st, s[0], s[1..]) == Some((Apply(st, f), tail))
  {
    hide TakeString, TakeNat, StringBytes, ToLE, ReadCustom, EntriesBytes, ApplyEntries, SetInt, SetStr, SetSubType, SetActionId;
    match f
    case Pieces(n) =>
      Assoc([15], [n], tail);
      Behind(15, [n] + tail);
      TakeByte(n, tail);
    case Charged(n) =>
      Assoc([22], ToLE(n, 2), tail);
      Behind(22, ToLE(n, 2) + tail);
      TakeNatOfBytes(n, 2, tail);
    case Action(n) =>
      Assoc([4], ToLE(n, 2), tail);
      Behind(4, ToLE(n, 2) + tail);
      TakeNatOfBytes(n, 2, tail);
    case Decaying(state) =>
      Assoc([17], [state], tail);
      Behind(17, [state] + tail);
      TakeByte(state, tail);
  }

  lemma ReadWords(st: State, f: Field, tail: seq<Byte>)
    requires FieldOk(f) && f.Words?
    ensures var s := FieldBytes(f) + tail;
      && s != [] && s[0] != 0 && s[0] != CONTAINER_ITEMS
      && ReadAttr(st, s[0], s[1..]) == Some((Apply(st, f), tail))
  {
    hide TakeString, TakeNat, StringBytes, ToLE, ReadCustom, EntriesBytes, ApplyEntries, SetInt, SetStr, SetSubType, SetActionId;
    var b := CodeOfStr(f.sa);
    Assoc([b], StringBytes(f.words), tail);
    Behind(b, StringBytes(f.words) + tail);
    KeyRead(f.words, tail);
  }

  lemma ReadNumber(st: State, f: Field, tail: seq<Byte>)
    requires FieldOk(f) && f.Number?
    ensures var s := FieldBytes(f) + tail;
      && s != [] && s[0] != 0 && s[0] != CONTAINER_ITEMS
      && ReadAttr(st, s[0], s[1..]) == Some((Apply(st, f), tail))
  {
    hide TakeString, TakeNat, StringBytes, ToLE, ReadCustom, EntriesBytes, ApplyEntries, SetInt, SetStr, SetSubType, SetActionId;
    var b := CodeOfInt(f.ia);
    Assoc([b], ToLE(f.raw, Width(f.ia)), tail);
    Behind(b, ToLE(f.raw, Width(f.ia)) + tail);
    TakeNatOfBytes(f.raw, Width(f.ia), tail);
  }

  lemma ReadTable(st: State, f: Field, tail: seq<Byte>)
    requires FieldOk(f) && f.Custom?
    ensures var s := FieldBytes(f) + tail;
      && s != [] && s[0] != 0 && s[0] != CONTAINER_ITEMS
      && ReadAttr(st, s[0], s[1..]) == Some((Apply(st, f), tail))
  {
    hide TakeString, TakeNat, StringBytes, ToLE, ReadCustom, EntriesBytes, ApplyEntries, SetInt, SetStr, SetSubType, SetActionId;
    var es := f.entries;
    var n := ToLE(|es|, 8);
    Assoc([34], n + EntriesBytes(es), tail);
    Assoc(n, EntriesBytes(es), tail);
    Behind(34, n + (EntriesBytes(es) + tail));
    TakeNatOfBytes(|es|, 8, EntriesBytes(es) + tail);
    ReadCustomBytes(st, es, tail);
  }

  /** Reading the records of an item does exactly what the records say, one after the other. */
  lemma {:induction false} ReadFields(st: State, fs: seq<Field>, tail: seq<Byte>)
    requires forall f <- fs :: FieldOk(f)
    ensures Unserialize(st, Concat(fs) + tail) == Unserialize(ApplyAll(st, fs), tail)
    decreases |fs|
  {
    hide FieldBytes, ReadAttr, Apply, FieldOk;
    if fs == [] {
      assert Concat(fs) + tail == tail;
    } else {
      Assoc(FieldBytes(fs[0]), Concat(fs[1..]), tail);
      ReadFieldBytes(st, fs[0], Concat(fs[1..]) + tail);
      ReadFields(Apply(st, fs[0]), fs[1..], tail);
    }
  }

  // ---------------------------------------------------------------------
  // What comes back
  // ---------------------------------------------------------------------

  lemma {:induction false} ApplyAppend(st: State, a: seq<Field>, b: seq<Field>)
    ensures ApplyAll(st, a + b) == ApplyAll(ApplyAll(st, a), b)
    decreases |a|
  {
    hide Apply;
    if a == [] {
      assert a + b == b;
    } else {
      assert (a + b)[1..] == a[1..] + b;
      ApplyAppend(Apply(st, a[0]), a[1..], b);
    }
  }

  lemma ApplyOnly(st: State, c: bool, f: Field)
    ensures ApplyAll(st, Only(c, f)) == if c then Apply(st, f) else st
  {
    assert [f][1..] == [];
  }

  /** What a number that was written as another one is when it is set again. */
  function NumberBack(st: State, from: State, a: IntAttr): State {
    if a in from.ints then SetInt(st, a, Read(a, Low(Int(from, a), Width(a)))) else st
  }

  function WordsBack(st: State, from: State, a: StrAttr): State {
    if a in from.strs then SetStr(st, a, Clip(from.strs[a])) else st
  }

  function HeadBack(st: State, from: State): State {
    var st := if from.ty.stackable || from.ty.fluid then SetSubType(st, PiecesOf(from)) else st;
    var charges, action := Low(Int(from, Charges), 2), Low(Int(from, ActionId), 2);
    var st := if charges != 0 then SetSubType(st, charges) else st;
    if from.ty.moveable && action != 0 then SetActionId(st, action) else st
  }

  lemma HeadIsBack(st: State, from: State)
    ensures ApplyAll(st, HeadFields(from)) == HeadBack(st, from)
  {
    hide ApplyAll, Only, PiecesOf, SetSubType, SetActionId, Low;
    var charges, action := Low(Int(from, Charges), 2), Low(Int(from, ActionId), 2);
    var p1 := Only(from.ty.stackable || from.ty.fluid, Pieces(PiecesOf(from)));
    var p2 := Only(charges != 0, Charged(charges));
    var p3 := Only(from.ty.moveable && action != 0, Action(action));
    ApplyAppend(st, p1 + p2, p3);
    ApplyAppend(st, p1, p2);
    ApplyOnly(st, from.ty.stackable || from.ty.fluid, Pieces(PiecesOf(from)));
    ApplyOnly(ApplyAll(st, p1), charges != 0, Charged(charges));
    ApplyOnly(ApplyAll(ApplyAll(st, p1), p2), from.ty.moveable && action != 0, Action(action));
  }

  lemma NumberIsBack(st: State, from: State, a: IntAttr)
    ensures ApplyAll(st, NumberOf(from, a)) == NumberBack(st, from, a)
  {
    ApplyOnly(st, a in from.ints, Number(a, Low(Int(from, a), Width(a))));
  }

  lemma WordsAreBack(st: State, from: State, a: StrAttr)
    ensures ApplyAll(st, WordsOf(from, a)) == WordsBack(st, from, a)
  {
    if a in from.strs {
      ApplyOnly(st, from.strs[a] != [], Words(a, from.strs[a]));
    }
  }

  function DateBack(st: State, from: State): State {
    if Int(from, Date) != 0 then SetInt(st, Date, Read(Date, Low(Int(from, Date), 4))) else st
  }

  function DecayBack(st: State, from: State): State {
    if DecayByte(from) == TRUE_STATE || DecayByte(from) == PENDING_STATE
    then SetInt(st, DecayState, PENDING_STATE) else st
  }

  function TextBack(st: State, from: State): State {
    var st := DateBack(WordsBack(st, from, Text), from);
    var st := WordsBack(WordsBack(st, from, Writer), from, Description);
    var st := DecayBack(NumberBack(st, from, Duration), from);
    WordsBack(WordsBack(WordsBack(st, from, Name), from, Article), from, PluralName)
  }

  lemma TextIsBack(st: State, from: State)
    ensures ApplyAll(st, TextFields(from)) == TextBack(st, from)
  {
    hide ApplyAll, Only, WordsOf, NumberOf, WordsBack, NumberBack, Low;
    var date := Only(Int(from, Date) != 0, Number(Date, Low(Int(from, Date), 4)));
    var yes := Only(DecayByte(from) == TRUE_STATE, Decaying(TRUE_STATE));
    var pending := Only(DecayByte(from) == PENDING_STATE, Decaying(PENDING_STATE));
    var a1 := WordsOf(from, Text);
    var a2 := a1 + date;
    var a3 := a2 + WordsOf(from, Writer);
    var a4 := a3 + WordsOf(from, Description);
    var a5 := a4 + NumberOf(from, Duration);
    var a6 := a5 + yes;
    var a7 := a6 + pending;
    var a8 := a7 + WordsOf(from, Name);
    var a9 := a8 + WordsOf(from, Article);
    ApplyAppend(st, a9, WordsOf(from, PluralName));
    ApplyAppend(st, a8, WordsOf(from, Article));
    ApplyAppend(st, a7, WordsOf(from, Name));
    ApplyAppend(st, a6, pending);
    ApplyAppend(st, a5, yes);
    ApplyAppend(st, a4, NumberOf(from, Duration));
    ApplyAppend(st, a3, WordsOf(from, Description));
    ApplyAppend(st, a2, WordsOf(from, Writer));
    ApplyAppend(st, a1, date);
    WordsAreBack(st, from, Text);
    ApplyOnly(ApplyAll(st, a1), Int(from, Date) != 0, Number(Date, Low(Int(from, Date), 4)));
    WordsAreBack(ApplyAll(st, a2), from, Writer);
    WordsAreBack(ApplyAll(st, a3), from, Description);
    NumberIsBack(ApplyAll(st, a4), from, Duration);
    ApplyOnly(ApplyAll(st, a5), DecayByte(from) == TRUE_STATE, Decaying(TRUE_STATE));
    ApplyOnly(ApplyAll(st, a6), DecayByte(from) == PENDING_STATE, Decaying(PENDING_STATE));
    WordsAreBack(ApplyAll(st, a7), from, Name);
    WordsAreBack(ApplyAll(st, a8), from, Article);
    WordsAreBack(ApplyAll(st, a9), from, PluralName);
  }

  function NumbersBack(st: State, from: State): State {
    var st := NumberBack(NumberBack(NumberBack(st, from, Weight), from, Attack), from, AttackSpeed);
    var st := NumberBack(NumberBack(NumberBack(st, from, Defense), from, ExtraDefense), from, Armor);
    NumberBack(NumberBack(NumberBack(st, from, HitChance), from, ShootRange), from, DecayTo)
  }

  lemma NumbersAreBack(st: State, from: State)
    ensures ApplyAll(st, NumberFields(from)) == NumbersBack(st, from)
  {
    hide ApplyAll, NumberOf, NumberBack;
    var a1 := NumberOf(from, Weight);
    var a2 := a1 + NumberOf(from, Attack);
    var a3 := a2 + NumberOf(from, AttackSpeed);
    var a4 := a3 + NumberOf(from, Defense);
    var a5 := a4 + NumberOf(from, ExtraDefense);
    var a6 := a5 + NumberOf(from, Armor);
    var a7 := a6 + NumberOf(from, HitChance);
    var a8 := a7 + NumberOf(from, ShootRange);
    ApplyAppend(st, a8, NumberOf(from, DecayTo));
    ApplyAppend(st, a7, NumberOf(from, ShootRange));
    ApplyAppend(st, a6, NumberOf(from, HitChance));
    ApplyAppend(st, a5, NumberOf(from, Armor));
    ApplyAppend(st, a4, NumberOf(from, ExtraDefense));
    ApplyAppend(st, a3, NumberOf(from, Defense));
    ApplyAppend(st, a2, NumberOf(from, AttackSpeed));
    ApplyAppend(st, a1, NumberOf(from, Attack));
    NumberIsBack(st, from, Weight);
    NumberIsBack(ApplyAll(st, a1), from, Attack);
    NumberIsBack(ApplyAll(st, a2), from, AttackSpeed);
    NumberIsBack(ApplyAll(st, a3), from, Defense);
    NumberIsBack(ApplyAll(st, a4), from, ExtraDefense);
    NumberIsBack(ApplyAll(st, a5), from, Armor);
    NumberIsBack(ApplyAll(st, a6), from, HitChance);
    NumberIsBack(ApplyAll(st, a7), from, ShootRange);
    NumberIsBack(ApplyAll(st, a8), from, DecayTo);
  }

  function CustomBack(st: State, from: State): State {
    if from.custom.Some? then ApplyEntries(st, from.custom.value) else st
  }

  /** An item after its bytes have been read onto another one, attribute by attribute. */
  function Back(st: State, from: State): State {
    CustomBack(NumbersBack(TextBack(HeadBack(st, from), from), from), from)
  }

  lemma FieldsAreBack(st: State, from: State)
    ensures ApplyAll(st, Fields(from)) == Back(st, from)
  {
    hide ApplyAll, HeadFields, TextFields, NumberFields, CustomFields, HeadBack, TextBack, NumbersBack, CustomBack;
    ApplyAppend(st, HeadFields(from) + TextFields(from) + NumberFields(from), CustomFields(from));
    ApplyAppend(st, HeadFields(from) + TextFields(from), NumberFields(from));
    ApplyAppend(st, HeadFields(from), TextFields(from));
    HeadIsBack(st, from);
    TextIsBack(HeadBack(st, from), from);
    NumbersAreBack(TextBack(HeadBack(st, from), from), from);
    CustomIsBack(NumbersBack(TextBack(HeadBack(st, from), from), from), from);
  }

  lemma CustomIsBack(st: State, from: State)
    ensures ApplyAll(st, CustomFields(from)) == CustomBack(st, from)
  {
    if from.custom.Some? {
      ApplyOnly(st, true, Custom(from.custom.value));
    }
  }

  /** No custom attribute is blank, and their numbers have 64 bits. */
  predicate CustomSound(st: State) {
    st.custom.Some? ==> EntriesOk(st.custom.value) && |st.custom.value| < Pow256(8)
  }

  predicate AllOk(fs: seq<Field>) { forall f <- fs :: FieldOk(f) }

  lemma BothOk(a: seq<Field>, b: seq<Field>)
    requires AllOk(a) && AllOk(b)
    ensures AllOk(a + b)
  {
    hide FieldOk;
  }

  lemma NumberIsOk(st: State, a: IntAttr)
    requires CodeOfInt(a) != 0
    ensures AllOk(NumberOf(st, a))
  {
  }

  lemma WordsAreOk(st: State, a: StrAttr)
    ensures AllOk(WordsOf(st, a))
  {
  }

  lemma HeadIsOk(st: State)
    ensures AllOk(HeadFields(st))
  {
    hide Low, PiecesOf;
  }

  lemma TextIsOk(st: State)
    ensures AllOk(TextFields(st))
  {
    var date := Only(Int(st, Date) != 0, Number(Date, Low(Int(st, Date), 4)));
    var yes := Only(DecayByte(st) == TRUE_STATE, Decaying(TRUE_STATE));
    var pending := Only(DecayByte(st) == PENDING_STATE, Decaying(PENDING_STATE));
    assert AllOk(date) && AllOk(yes) && AllOk(pending);
    WordsAreOk(st, Text);
    WordsAreOk(st, Writer);
    WordsAreOk(st, Description);
    WordsAreOk(st, Name);
    WordsAreOk(st, Article);
    WordsAreOk(st, PluralName);
    NumberIsOk(st, Duration);
    hide AllOk, Only, WordsOf, NumberOf;
    var a1 := WordsOf(st, Text) + date;
    BothOk(WordsOf(st, Text), date);
    BothOk(a1, WordsOf(st, Writer));
    BothOk(a1 + WordsOf(st, Writer), WordsOf(st, Description));
    var a2 := a1 + WordsOf(st, Writer) + WordsOf(st, Description);
    BothOk(a2, NumberOf(st, Duration));
    BothOk(a2 + NumberOf(st, Duration), yes);
    var a3 := a2 + NumberOf(st, Duration) + yes;
    BothOk(a3, pending);
    BothOk(a3 + pending, WordsOf(st, Name));
    var a4 := a3 + pending + WordsOf(st, Name);
    BothOk(a4, WordsOf(st, Article));
    BothOk(a4 + WordsOf(st, Article), WordsOf(st, PluralName));
  }

  lemma NumbersAreOk(st: State)
    ensures AllOk(NumberFields(st))
  {
    NumberIsOk(st, Weight);
    NumberIsOk(st, Attack);
    NumberIsOk(st, AttackSpeed);
    NumberIsOk(st, Defense);
    NumberIsOk(st, ExtraDefense);
    NumberIsOk(st, Armor);
    NumberIsOk(st, HitChance);
    NumberIsOk(st, ShootRange);
    NumberIsOk(st, DecayTo);
    hide AllOk, NumberOf;
    var a1 := NumberOf(st, Weight) + NumberOf(st, Attack);
    BothOk(NumberOf(st, Weight), NumberOf(st, Attack));
    BothOk(a1, NumberOf(st, AttackSpeed));
    BothOk(a1 + NumberOf(st, AttackSpeed), NumberOf(st, Defense));
    var a2 := a1 + NumberOf(st, AttackSpeed) + NumberOf(st, Defense);
    BothOk(a2, NumberOf(st, ExtraDefense));
    BothOk(a2 + NumberOf(st, ExtraDefense), NumberOf(st, Armor));
    var a3 := a2 + NumberOf(st, ExtraDefense) + NumberOf(st, Armor);
    BothOk(a3, NumberOf(st, HitChance));
    BothOk(a3 + NumberOf(st, HitChance), NumberOf(st, ShootRange));
    BothOk(a3 + NumberOf(st, HitChance) + NumberOf(st, ShootRange), NumberOf(st, DecayTo));
  }

  lemma FieldsAreOk(st: State)
    requires CustomSound(st)
    ensures AllOk(Fields(st))
  {
    HeadIsOk(st);
    TextIsOk(st);
    NumbersAreOk(st);
    assert AllOk(CustomFields(st));
    hide AllOk, HeadFields, TextFields, NumberFields, CustomFields;
    BothOk(HeadFields(st), TextFields(st));
    BothOk(HeadFields(st) + TextFields(st), NumberFields(st));
    BothOk(HeadFields(st) + TextFields(st) + NumberFields(st), CustomFields(st));
  }

  /** Reading an item's bytes onto any item leaves it as Back says, in front of whatever comes after. */
  lemma ReadBack(st: State, from: State, tail: seq<Byte>)
    requires CustomSound(from)
    ensures Unserialize(st, Serialize(from) + tail) == Unserialize(Back(st, from), tail)
  {
    hide Fields, Back, FieldOk, Concat, Unserialize;
    FieldsAreOk(from);
    ReadFields(st, Fields(from), tail);
    FieldsAreBack(st, from);
  }

  /** The same without anything behind the attributes, as in a column of the database. */
  lemma ColumnBack(st: State, from: State)
    requires CustomSound(from)
    ensures Unserialize(st, Serialize(from)) == Some(Loaded(Back(st, from), [], 0))
  {
    hide Back, Serialize;
    ReadBack(st, from, []);
    assert Serialize(from) + [] == Serialize(from);
  }

  // ---------------------------------------------------------------------
  // When nothing is lost
  // ---------------------------------------------------------------------

  function At(st: State, a: IntAttr): Option<int> {
    if a in st.ints then Some(st.ints[a]) else None
  }

  function WordsAt(st: State, a: StrAttr): Option<seq<Byte>> {
    if a in st.strs then Some(st.strs[a]) else None
  }

  /** The value a number has after it has been written and read. */
  function NumberAfter(from: State, a: IntAttr): int {
    var v := Read(a, Low(Int(from, a), Width(a)));
    if a.AttackSpeed? && v < 100 then 100 else v
  }

  /** The numbers that fit the bytes they are written as. */
  predicate InRange(a: IntAttr, v: int) {
    match a
    case Weight | AttackSpeed | ShootRange => 0 <= v < Pow256(Width(a))
    case Duration => 0 <= v && FitsSigned(v, 4)
    case _ => FitsSigned(v, Width(a))
  }

  lemma SignedKept(v: int, n: nat)
    requires n > 0
    ensures ToSigned(Low(v, n), n) == v <==> FitsSigned(v, n)
    ensures FitsSigned(ToSigned(Low(v, n), n), n)
  {
    if FitsSigned(v, n) { SignedRoundTrip(v, n); }
    EvenPower(n);
  }

  lemma EvenPower(n: nat)
    requires n > 0
    ensures Pow256(n) % 2 == 0
  {
    assert Pow256(n) == 2 * (128 * Pow256(n - 1));
  }

  lemma LowKept(v: int, n: nat)
    ensures Low(v, n) == v <==> 0 <= v < Pow256(n)
  {
    if 0 <= v < Pow256(n) { ModUnique(v, Pow256(n), 0, v); }
  }

  /** A number survives exactly if it fits. */
  lemma NumberKept(from: State, a: IntAttr)
    requires a.AttackSpeed? ==> Int(from, a) >= 100
    ensures NumberAfter(from, a) == Int(from, a) <==> InRange(a, Int(from, a))
  {
    var v := Int(from, a);
    WordSizes();
    SignedKept(v, Width(a));
    LowKept(v, Width(a));
    hide ToSigned, Low, Pow256;
  }

  lemma NumberBackAt(st: State, from: State, a: IntAttr, b: IntAttr)
    ensures At(NumberBack(st, from, a), b) == if b == a && a in from.ints then Some(NumberAfter(from, a)) else At(st, b)
    ensures var r := NumberBack(st, from, a); r.strs == st.strs && r.custom == st.custom && r.count == st.count && r.ty == st.ty
  {
    hide Read, Low;
  }

  predicate Plain(a: IntAttr) {
    a.Weight? || a.Attack? || a.AttackSpeed? || a.Defense? || a.ExtraDefense? || a.Armor? || a.HitChance? || a.ShootRange? || a.DecayTo?
  }

  lemma NumbersBackAt(st: State, from: State, b: IntAttr)
    ensures At(NumbersBack(st, from), b) == if Plain(b) && b in from.ints then Some(NumberAfter(from, b)) else At(st, b)
    ensures var r := NumbersBack(st, from); r.strs == st.strs && r.custom == st.custom && r.count == st.count && r.ty == st.ty
  {
    hide NumberBack, NumberAfter, At;
    var s1 := NumberBack(st, from, Weight);
    var s2 := NumberBack(s1, from, Attack);
    var s3 := NumberBack(s2, from, AttackSpeed);
    var s4 := NumberBack(s3, from, Defense);
    var s5 := NumberBack(s4, from, ExtraDefense);
    var s6 := NumberBack(s5, from, Armor);
    var s7 := NumberBack(s6, from, HitChance);
    var s8 := NumberBack(s7, from, ShootRange);
    NumberBackAt(st, from, Weight, b);
    NumberBackAt(s1, from, Attack, b);
    NumberBackAt(s2, from, AttackSpeed, b);
    NumberBackAt(s3, from, Defense, b);
    NumberBackAt(s4, from, ExtraDefense, b);
    NumberBackAt(s5, from, Armor, b);
    NumberBackAt(s6, from, HitChance, b);
    NumberBackAt(s7, from, ShootRange, b);
    NumberBackAt(s8, from, DecayTo, b);
  }

  lemma WordsBackAt(st: State, from: State, a: StrAttr, b: StrAttr)
    ensures WordsAt(WordsBack(st, from, a), b) ==
      (if b == a && a in from.strs && Clip(from.strs[a]) != [] then Some(Clip(from.strs[a])) else WordsAt(st, b))
    ensures var r := WordsBack(st, from, a); r.ints == st.ints && r.custom == st.custom && r.count == st.count && r.ty == st.ty
  {
  }

  lemma DateBackAt(st: State, from: State, b: IntAttr)
    ensures At(DateBack(st, from), b) ==
      (if b.Date? && Int(from, Date) != 0 then Some(Read(Date, Low(Int(from, Date), 4))) else At(st, b))
    ensures var r := DateBack(st, from); r.strs == st.strs && r.custom == st.custom && r.count == st.count && r.ty == st.ty
  {
    hide Read, Low;
  }

  predicate Decays(x: State) { DecayByte(x) == TRUE_STATE || DecayByte(x) == PENDING_STATE }

  lemma DecayBackAt(st: State, from: State, b: IntAttr)
    ensures At(DecayBack(st, from), b) == (if b.DecayState? && Decays(from) then Some(PENDING_STATE) else At(st, b))
    ensures var r := DecayBack(st, from); r.strs == st.strs && r.custom == st.custom && r.count == st.count && r.ty == st.ty
  {
  }

  /** What the second group of records leaves behind, attribute by attribute. */
  lemma TextBackAt(st: State, from: State, b: IntAttr)
    ensures var r := TextBack(st, from); r.custom == st.custom && r.count == st.count && r.ty == st.ty
    ensures At(TextBack(st, from), b) ==
      (if b.Date? && Int(from, Date) != 0 then Some(Read(Date, Low(Int(from, Date), 4)))
       else if b.Duration? && Duration in from.ints then Some(NumberAfter(from, Duration))
       else if b.DecayState? && Decays(from) then Some(PENDING_STATE)
       else At(st, b))
  {
    var s1 := WordsBack(st, from, Text);
    var s2 := DateBack(s1, from);
    var s3 := WordsBack(s2, from, Writer);
    var s4 := WordsBack(s3, from, Description);
    var s5 := NumberBack(s4, from, Duration);
    var s6 := DecayBack(s5, from);
    var s7 := WordsBack(s6, from, Name);
    var s8 := WordsBack(s7, from, Article);
    hide WordsBack, NumberBack, NumberAfter, Read, Low, DateBack, DecayBack, Decays;
    WordsBackAt(st, from, Text, Text);
    DateBackAt(s1, from, b);
    WordsBackAt(s2, from, Writer, Text);
    WordsBackAt(s3, from, Description, Text);
    NumberBackAt(s4, from, Duration, b);
    DecayBackAt(s5, from, b);
    WordsBackAt(s6, from, Name, Text);
    WordsBackAt(s7, from, Article, Text);
    WordsBackAt(s8, from, PluralName, Text);
  }

  lemma TextBackWords(st: State, from: State, a: StrAttr)
    ensures WordsAt(TextBack(st, from), a) ==
      (if a in from.strs && Clip(from.strs[a]) != [] then Some(Clip(from.strs[a])) else WordsAt(st, a))
  {
    var s1 := WordsBack(st, from, Text);
    var s2 := DateBack(s1, from);
    var s3 := WordsBack(s2, from, Writer);
    var s4 := WordsBack(s3, from, Description);
    var s5 := NumberBack(s4, from, Duration);
    var s6 := DecayBack(s5, from);
    var s7 := WordsBack(s6, from, Name);
    var s8 := WordsBack(s7, from, Article);
    hide WordsBack, NumberBack, DateBack, DecayBack, Clip;
    WordsBackAt(st, from, Text, a);
    DateBackAt(s1, from, Date);
    WordsBackAt(s2, from, Writer, a);
    WordsBackAt(s3, from, Description, a);
    NumberBackAt(s4, from, Duration, Date);
    DecayBackAt(s5, from, Date);
    WordsBackAt(s6, from, Name, a);
    WordsBackAt(s7, from, Article, a);
    WordsBackAt(s8, from, PluralName, a);
  }

  /** Count, charges and action id are the same. */
  predicate HeadSame(x: State, y: State) {
    (x.ty.stackable || x.ty.fluid ==> SubType(y) == SubType(x)) &&
    Int(y, Charges) == Int(x, Charges) &&
    (x.ty.moveable ==> Int(y, ActionId) == Int(x, ActionId))
  }

  /** Whether a piece of the type carries charges. */
  predicate HasCharges(ty: ItemType) { ty.charges != 0 && !ty.stackable && !ty.fluid }

  /** Charges of 16 bits where and only where the type has them, a fluid of one byte, an action id of 16 bits that is
      none or at least a hundred. No charges at all are filled up to those of the type. */
  predicate HeadFits(x: State) {
    (if HasCharges(x.ty) && x.ty.charges % 0x1_0000 != 0 then 0 < Int(x, Charges) < 0x1_0000
     else if HasCharges(x.ty) then 0 <= Int(x, Charges) < 0x1_0000
     else Int(x, Charges) == 0) &&
    (x.ty.fluid ==> 0 <= Int(x, FluidType) < 256) &&
    (x.ty.moveable ==> Int(x, ActionId) == 0 || 100 <= Int(x, ActionId) < 0x1_0000)
  }

  /** How every item is stored: the setters see to it, whatever they are given. */
  ghost predicate Stored(x: State) {
    x.count < 256 && (AttackSpeed in x.ints ==> Int(x, AttackSpeed) >= 100) &&
    (forall a <- x.strs :: x.strs[a] != []) && KeysOk(Listed(x)) && EntriesOk(Listed(x))
  }

  function Listed(x: State): seq<Entry> {
    match x.custom case None => [] case Some(es) => es
  }

  /** The keys of a table: each once and in lower case. */
  ghost predicate KeysOk(es: seq<Entry>) {
    (forall e <- es :: Lower(e.key) == e.key) &&
    forall i, j | 0 <= i < j < |es| :: es[i].key != es[j].key
  }

  lemma HeadBackIs(x: State, duration: nat)
    requires Stored(x)
    ensures var y := HeadBack(Fresh(x.ty, duration), x);
      && (HeadSame(x, y) <==> HeadFits(x))
      && y.ty == x.ty && y.strs == map[] && y.custom == None
  {
    WordSizes();
    LowKept(Int(x, Charges), 2);
    LowKept(Int(x, ActionId), 2);
    LowKept(SubType(x), 1);
    hide Low, Pow256;
    var st := Fresh(x.ty, duration);
    var s1 := if x.ty.stackable || x.ty.fluid then SetSubType(st, PiecesOf(x)) else st;
    assert Int(s1, Charges) == if HasCharges(x.ty) then x.ty.charges % 0x1_0000 else 0;
    var charges := Low(Int(x, Charges), 2);
    var s2 := if charges != 0 then SetSubType(s1, charges) else s1;
    assert Int(s2, ActionId) == 0;
  }

  lemma HeadBackAt(x: State, duration: nat, b: IntAttr)
    requires !b.Charges? && !b.FluidType? && !b.ActionId?
    ensures At(HeadBack(Fresh(x.ty, duration), x), b) == if b.Duration? && x.ty.duration && duration != 0 then Some(duration) else None
  {
    hide Low, PiecesOf;
  }

  // ---- custom attributes ----

  function ClipAll(es: seq<Entry>): (r: seq<Entry>)
    ensures |r| == |es| && forall i | 0 <= i < |es| :: r[i] == Entry(es[i].key, ClipValue(es[i].value))
  {
    if es == [] then [] else [Entry(es[0].key, ClipValue(es[0].value))] + ClipAll(es[1..])
  }

  lemma {:induction false} NothingToDrop(es: seq<Entry>, key: seq<Byte>)
    requires forall e <- es :: e.key != key
    ensures Drop(es, key) == es
  {
    if es != [] { NothingToDrop(es[1..], key); }
  }

  /** Every key is short enough for the stream. */
  predicate ShortKeys(es: seq<Entry>) {
    forall e <- es :: |e.key| <= MAX_STRING
  }

  lemma {:induction false} DropFrom(es: seq<Entry>, key: seq<Byte>)
    ensures forall e <- Drop(es, key) :: e in es && e.key != key
  {
    if es != [] { DropFrom(es[1..], key); }
  }

  /** Whatever was written, only short keys come out of the stream. */
  lemma {:induction false} KeysComeShort(st: State, es: seq<Entry>)
    requires ShortKeys(Listed(st))
    ensures ShortKeys(Listed(ApplyEntries(st, es)))
    decreases |es|
  {
    if es != [] {
      var key := Lower(Clip(es[0].key));
      if st.custom.Some? { DropFrom(st.custom.value, key); }
      KeysComeShort(SetCustom(st, Clip(es[0].key), ClipValue(es[0].value)), es[1..]);
    }
  }

  lemma {:induction false} EntriesBack(st: State, es: seq<Entry>)
    requires KeysOk(Listed(st) + es) && ShortKeys(es)
    ensures ApplyEntries(st, es) == (if es == [] then st else st.(custom := Some(Listed(st) + ClipAll(es))))
    decreases |es|
  {
    if es != [] {
      var done, e, more := Listed(st), es[0], es[1..];
      var e' := Entry(e.key, ClipValue(e.value));
      FirstKey(done, es);
      ClipCons(es);
      KeysMoved(done, es);
      NothingToDrop(done, e.key);
      var st' := SetCustom(st, Clip(e.key), ClipValue(e.value));
      hide KeysOk, Lower, Clip, ClipValue, ClipAll, Drop;
      assert ShortKeys(more);
      assert st' == st.(custom := Some(done + [e']));
      EntriesBack(st', more);
      Assoc(done, [e'], ClipAll(more));
      assert (done + [e']) + [] == done + [e'];
    } else {
      assert Listed(st) + es == Listed(st);
    }
  }

  lemma FirstKey(done: seq<Entry>, es: seq<Entry>)
    requires es != [] && KeysOk(done + es) && ShortKeys(es)
    ensures Lower(es[0].key) == es[0].key && Clip(es[0].key) == es[0].key
    ensures forall d <- done :: d.key != es[0].key
  {
    assert (done + es)[|done|] == es[0];
    assert es[0] in done + es;
    forall d <- done ensures d.key != es[0].key {
      var j :| 0 <= j < |done| && done[j] == d;
      assert (done + es)[j] == d;
    }
  }

  lemma ClipCons(es: seq<Entry>)
    requires es != []
    ensures ClipAll(es) == [Entry(es[0].key, ClipValue(es[0].value))] + ClipAll(es[1..])
    ensures es[1..] == [] ==> ClipAll(es[1..]) == []
  {
  }

  lemma KeysMoved(done: seq<Entry>, es: seq<Entry>)
    requires es != [] && KeysOk(done + es)
    ensures KeysOk((done + [Entry(es[0].key, ClipValue(es[0].value))]) + es[1..])
  {
    var a, b := done + es, (done + [Entry(es[0].key, ClipValue(es[0].value))]) + es[1..];
    assert |a| == |b| && forall i | 0 <= i < |b| :: b[i].key == a[i].key;
    forall e <- b ensures Lower(e.key) == e.key {
      var i :| 0 <= i < |b| && b[i] == e;
      assert a[i] in a;
    }
  }

  predicate ShortStrings(es: seq<Entry>) {
    forall e <- es :: e.value.Str? ==> |e.value.str| <= MAX_STRING
  }

  lemma ClipsNothing(es: seq<Entry>)
    ensures ClipAll(es) == es <==> ShortStrings(es)
  {
    if ShortStrings(es) {
      assert forall i | 0 <= i < |es| :: es[i] in es && ClipAll(es)[i] == es[i];
    } else {
      var e :| e in es && e.value.Str? && |e.value.str| > MAX_STRING;
      var i :| 0 <= i < |es| && es[i] == e;
      assert ClipAll(es)[i].value == Str([]);
    }
  }

  // ---- the whole item ----

  predicate Saved(a: IntAttr) { Plain(a) || a.Duration? }

  /** The second item has every attribute that is written as the first one has it; decaying has become pending. */
  ghost predicate Same(x: State, y: State) {
    y.ty == x.ty && HeadSame(x, y) && y.strs == x.strs && Int(y, Date) == Int(x, Date) &&
    (forall a | Saved(a) :: At(y, a) == At(x, a)) &&
    Int(y, DecayState) == (if Int(x, DecayState) == TRUE_STATE then PENDING_STATE else Int(x, DecayState)) &&
    Listed(y) == Listed(x)
  }

  /** What it takes for nothing to be lost. */
  ghost predicate Fits(x: State, duration: nat) {
    HeadFits(x) &&
    (forall a <- x.strs :: |x.strs[a]| <= MAX_STRING) &&
    (forall a | Saved(a) && a in x.ints :: InRange(a, x.ints[a])) &&
    (Duration in x.ints || !x.ty.duration || duration == 0) &&
    FitsSigned(Int(x, Date), 4) && 0 <= Int(x, DecayState) <= PENDING_STATE &&
    ShortKeys(Listed(x)) && ShortStrings(Listed(x))
  }

  lemma BackAt(x: State, duration: nat, a: IntAttr)
    requires !a.Charges? && !a.FluidType? && !a.ActionId? && Stored(x)
    ensures At(Back(Fresh(x.ty, duration), x), a) ==
      (if a.Date? && Int(x, Date) != 0 then Some(Read(Date, Low(Int(x, Date), 4)))
       else if Saved(a) && a in x.ints then Some(NumberAfter(x, a))
       else if a.DecayState? && Decays(x) then Some(PENDING_STATE)
       else if a.Duration? && x.ty.duration && duration != 0 then Some(duration)
       else None)
  {
    HeadBackAt(x, duration, a);
    PlainIsNumber(a);
    hide HeadBack, TextBack, NumbersBack, CustomBack, NumberAfter, Read, Low, Decays, Stored, Fresh, At, Plain;
    var s1 := HeadBack(Fresh(x.ty, duration), x);
    TextBackAt(s1, x, a);
    NumbersBackAt(TextBack(s1, x), x, a);
    CustomKeepsRest(NumbersBack(TextBack(s1, x), x), x);
    SameAt(NumbersBack(TextBack(s1, x), x), Back(Fresh(x.ty, duration), x), a);
  }

  lemma PlainIsNumber(a: IntAttr)
    ensures Plain(a) ==> !a.Date? && !a.Duration? && !a.DecayState?
  {
  }

  lemma SameAt(x: State, y: State, a: IntAttr)
    requires x.ints == y.ints
    ensures At(x, a) == At(y, a)
  {
  }

  lemma {:induction false} EntriesKeepRest(st: State, es: seq<Entry>)
    ensures var r := ApplyEntries(st, es); r.ints == st.ints && r.strs == st.strs && r.count == st.count && r.ty == st.ty
    decreases |es|
  {
    if es != [] { EntriesKeepRest(SetCustom(st, Clip(es[0].key), ClipValue(es[0].value)), es[1..]); }
  }

  lemma CustomKeepsRest(st: State, from: State)
    ensures var r := CustomBack(st, from); r.ints == st.ints && r.strs == st.strs && r.count == st.count && r.ty == st.ty
  {
    if from.custom.Some? { EntriesKeepRest(st, from.custom.value); }
  }

  /** Where an item stands before its custom attributes are read. */
  function BeforeCustom(x: State, duration: nat): State {
    NumbersBack(TextBack(HeadBack(Fresh(x.ty, duration), x), x), x)
  }

  lemma HeadPart(x: State, duration: nat)
    requires Stored(x)
    ensures var y := Back(Fresh(x.ty, duration), x); y.ty == x.ty && (HeadSame(x, y) <==> HeadFits(x))
  {
    HeadBackIs(x, duration);
    hide HeadBack, TextBack, NumbersBack, CustomBack, NumberAfter, Read, Low, Decays, Stored, Fresh, HeadSame, HeadFits;
    var s1 := HeadBack(Fresh(x.ty, duration), x);
    forall a: IntAttr | a.Charges? || a.FluidType? || a.ActionId?
      ensures At(Back(Fresh(x.ty, duration), x), a) == At(s1, a)
    {
      HeadKept(x, duration, a);
    }
    HeadKept(x, duration, Charges);
    hide Back, At;
    HeadSameAlike(x, s1, Back(Fresh(x.ty, duration), x));
  }

  lemma HeadKept(x: State, duration: nat, a: IntAttr)
    requires a.Charges? || a.FluidType? || a.ActionId?
    ensures var s1, y := HeadBack(Fresh(x.ty, duration), x), Back(Fresh(x.ty, duration), x);
            At(y, a) == At(s1, a) && y.ty == s1.ty && y.count == s1.count
  {
    hide HeadBack, TextBack, NumbersBack, CustomBack, NumberAfter, Read, Low, Decays, Fresh, At;
    var s1 := HeadBack(Fresh(x.ty, duration), x);
    TextBackAt(s1, x, a);
    NumbersBackAt(TextBack(s1, x), x, a);
    CustomKeepsRest(BeforeCustom(x, duration), x);
    SameAt(BeforeCustom(x, duration), Back(Fresh(x.ty, duration), x), a);
  }

  lemma HeadSameAlike(x: State, y: State, z: State)
    requires y.ty == z.ty && y.count == z.count
    requires forall a: IntAttr | a.Charges? || a.FluidType? || a.ActionId? :: At(y, a) == At(z, a)
    ensures HeadSame(x, y) == HeadSame(x, z)
  {
    assert At(y, Charges) == At(z, Charges) && At(y, FluidType) == At(z, FluidType) && At(y, ActionId) == At(z, ActionId);
  }

  lemma WordsPart(x: State, duration: nat)
    requires Stored(x)
    ensures Back(Fresh(x.ty, duration), x).strs == x.strs <==> forall a <- x.strs :: |x.strs[a]| <= MAX_STRING
  {
    HeadBackIs(x, duration);
    var s1 := HeadBack(Fresh(x.ty, duration), x);
    var y := Back(Fresh(x.ty, duration), x);
    hide HeadBack, TextBack, NumbersBack, CustomBack, Fresh, HeadSame, HeadFits, At;
    NumbersBackAt(TextBack(s1, x), x, Date);
    CustomKeepsRest(BeforeCustom(x, duration), x);
    forall a ensures WordsAt(y, a) == if a in x.strs && Clip(x.strs[a]) != [] then Some(Clip(x.strs[a])) else None {
      TextBackWords(s1, x, a);
    }
    if forall a <- x.strs :: |x.strs[a]| <= MAX_STRING {
      assert forall a :: WordsAt(y, a) == WordsAt(x, a);
      SameWords(x, y);
    } else {
      var a :| a in x.strs && |x.strs[a]| > MAX_STRING;
      assert WordsAt(y, a) == None;
    }
  }

  lemma SameWords(x: State, y: State)
    requires forall a :: WordsAt(y, a) == WordsAt(x, a)
    ensures x.strs == y.strs
  {
    forall a ensures a in x.strs <==> a in y.strs { assert WordsAt(y, a) == WordsAt(x, a); }
    forall a <- x.strs ensures x.strs[a] == y.strs[a] { assert WordsAt(y, a) == WordsAt(x, a); }
  }

  lemma DatePart(x: State, duration: nat)
    requires Stored(x)
    ensures Int(Back(Fresh(x.ty, duration), x), Date) == Int(x, Date) <==> FitsSigned(Int(x, Date), 4)
  {
    BackAt(x, duration, Date);
    hide Back, ToSigned, Low, Stored, Fresh;
    SignedKept(Int(x, Date), 4);
    ZeroFits();
  }

  lemma ZeroFits()
    ensures FitsSigned(0, 4)
  {
  }

  lemma DecayPart(x: State, duration: nat)
    requires Stored(x)
    ensures 0 <= Int(x, DecayState) <= PENDING_STATE <==>
              Int(Back(Fresh(x.ty, duration), x), DecayState) ==
              (if Int(x, DecayState) == TRUE_STATE then PENDING_STATE else Int(x, DecayState))
  {
    BackAt(x, duration, DecayState);
    hide Back, Low, Stored, Fresh;
    WordSizes();
    LowKept(Int(x, DecayState), 1);
  }

  lemma NumberPart(x: State, a: IntAttr, duration: nat)
    requires Stored(x) && Saved(a)
    ensures At(Back(Fresh(x.ty, duration), x), a) == At(x, a) <==> NumberFits(x, a, duration)
  {
    BackAt(x, duration, a);
    if a in x.ints { NumberKept(x, a); }
    hide Back, NumberAfter, InRange;
  }

  lemma CustomPart(x: State, duration: nat)
    requires Stored(x)
    ensures Listed(Back(Fresh(x.ty, duration), x)) == Listed(x) <==> ShortKeys(Listed(x)) && ShortStrings(Listed(x))
  {
    var st := BeforeCustom(x, duration);
    NoCustomYet(x, duration);
    hide BeforeCustom, ApplyEntries, ShortStrings, ShortKeys, HeadBack, TextBack, NumbersBack, Fresh;
    assert BeforeCustom(x, duration) == NumbersBack(TextBack(HeadBack(Fresh(x.ty, duration), x), x), x) by { BeforeIs(x, duration); }
    if x.custom.Some? {
      EntriesSame(st, x.custom.value);
    } else {
      NoStrings();
    }
  }

  lemma BeforeIs(x: State, duration: nat)
    ensures BeforeCustom(x, duration) == NumbersBack(TextBack(HeadBack(Fresh(x.ty, duration), x), x), x)
  {
  }

  lemma NoCustomYet(x: State, duration: nat)
    requires Stored(x)
    ensures BeforeCustom(x, duration).custom == None
  {
    HeadBackIs(x, duration);
    hide HeadBack, TextBack, NumbersBack, Fresh, HeadSame, HeadFits, At, Stored;
    var s1 := HeadBack(Fresh(x.ty, duration), x);
    TextBackAt(s1, x, Date);
    NumbersBackAt(TextBack(s1, x), x, Date);
  }

  lemma EntriesSame(st: State, es: seq<Entry>)
    requires st.custom == None && KeysOk(es)
    ensures Listed(ApplyEntries(st, es)) == es <==> ShortKeys(es) && ShortStrings(es)
  {
    hide ClipAll, ApplyEntries, ShortStrings, KeysOk;
    assert [] + es == es && [] + ClipAll(es) == ClipAll(es);
    if ShortKeys(es) {
      ClipsNothing(es);
      EntriesBack(st, es);
    } else {
      KeysComeShort(st, es);
    }
  }

  lemma NoStrings()
    ensures ShortStrings([]) && ShortKeys([])
  {
  }

  /** Reading an item back onto a new one of its type gives every written attribute exactly when it fits. */
  lemma NothingLostIff(x: State, duration: nat)
    requires Stored(x)
    ensures Same(x, Back(Fresh(x.ty, duration), x)) <==> Fits(x, duration)
  {
    var y := Back(Fresh(x.ty, duration), x);
    HeadPart(x, duration);
    WordsPart(x, duration);
    DatePart(x, duration);
    DecayPart(x, duration);
    CustomPart(x, duration);
    forall a | Saved(a) ensures At(y, a) == At(x, a) <==> NumberFits(x, a, duration) { NumberPart(x, a, duration); }
    FitsSplit(x, duration);
    hide Stored, HeadSame, HeadFits, Back, ShortStrings, ShortKeys, Fresh, Decays, Int, Fits, NumberFits, FitsSigned;
  }

  predicate NumberFits(x: State, a: IntAttr, duration: nat) {
    if a in x.ints then InRange(a, x.ints[a]) else a.Duration? ==> !x.ty.duration || duration == 0
  }

  lemma FitsSplit(x: State, duration: nat)
    ensures Fits(x, duration) <==>
      HeadFits(x) && (forall a <- x.strs :: |x.strs[a]| <= MAX_STRING) &&
      (forall a | Saved(a) :: NumberFits(x, a, duration)) &&
      FitsSigned(Int(x, Date), 4) && 0 <= Int(x, DecayState) <= PENDING_STATE &&
      ShortKeys(Listed(x)) && ShortStrings(Listed(x))
  {
    hide HeadFits, ShortStrings, ShortKeys, InRange, FitsSigned;
    if forall a | Saved(a) :: NumberFits(x, a, duration) {
      assert NumberFits(x, Duration, duration);
      assert forall a | Saved(a) && a in x.ints :: NumberFits(x, a, duration);
    }
  }

  /** An item that loses something: the reader raises an action id below a hundred. */
  lemma ActionIdFive(ty: ItemType)
    requires ty.moveable
    ensures var x := State(ty, 1, map[ActionId := 5], map[], None);
            Stored(x) && !Same(x, Back(Fresh(ty, 0), x)) && Int(Back(Fresh(ty, 0), x), ActionId) == 100
  {
    var x := State(ty, 1, map[ActionId := 5], map[], None);
    hide Back, Same, Fresh;
    NothingLostIff(x, 0);
    ActionIdBack(x, 0);
  }

  /** What becomes of the action id of an item that can be moved. */
  lemma ActionIdBack(x: State, duration: nat)
    requires Stored(x) && x.ty.moveable
    ensures var a := Low(Int(x, ActionId), 2);
            Int(Back(Fresh(x.ty, duration), x), ActionId) == if 0 < a < 100 then 100 else a
  {
    HeadKept(x, duration, ActionId);
    hide Back, Low, Pow256, PiecesOf;
    var s1 := HeadBack(Fresh(x.ty, duration), x);
    assert At(Back(Fresh(x.ty, duration), x), ActionId) == At(s1, ActionId);
  }

  // ---------------------------------------------------------------------
  // What items can become
  // ---------------------------------------------------------------------

  /** What a script can pass as the value of a custom attribute. */
  datatype ScriptValue = Chars(chars: seq<Byte>) | Whole(whole: int) | Fraction(bits: nat) | Truth(truth: bool) | Other

  function ValueOf(v: ScriptValue): Option<Value> {
    match v
    case Chars(s) => Some(Str(s))
    case Whole(n) => Some(Num(n))
    case Fraction(raw) => Some(Real(raw))
    case Truth(b) => Some(Flag(b))
    case Other => None
  }

  /** Everything that changes the attributes of an item. */
  datatype Change =
    | SetsNumber(a: IntAttr, v: int)
    | SetsText(sa: StrAttr, words: seq<Byte>)
    | SetsPieces(n: nat)
    | SetsAction(n: nat)
    | SetsCustom(key: seq<Byte>, value: ScriptValue)
    | ReadsEntry(key: seq<Byte>, bytes: seq<Byte>)
    | ReadsRecord(code: Byte, bytes: seq<Byte>)
    | RemovesNumber(a: IntAttr)
    | RemovesText(sa: StrAttr)
    | RemovesCustom(key: seq<Byte>)
    | RemovesAllCustom

  /** Numbers have 64 bits. */
  predicate Possible(c: Change) {
    c.SetsCustom? ==> match ValueOf(c.value) case None => true case Some(v) => ValueOk(v)
  }

  function Changed(st: State, c: Change): State {
    match c
    case SetsNumber(a, v) => SetInt(st, a, v)
    case SetsText(a, words) => SetStr(st, a, words)
    case SetsPieces(n) => SetSubType(st, n)
    case SetsAction(n) => SetActionId(st, n)
    case SetsCustom(key, value) => (match ValueOf(value) case None => st case Some(v) => SetCustom(st, key, v))
    case ReadsEntry(key, bytes) =>
      (match ReadValue(bytes) case None => st case Some((v, _)) => SetCustom(st, key, v))
    case ReadsRecord(code, bytes) =>
      (match ReadAttr(st, code, bytes) case None => st case Some((st', _)) => st')
    case RemovesNumber(a) => st.(ints := st.ints - {a})
    case RemovesText(a) => st.(strs := st.strs - {a})
    case RemovesCustom(key) => if st.custom.Some? then st.(custom := Some(Drop(st.custom.value, Lower(key)))) else st
    case RemovesAllCustom => st.(custom := None)
  }

  function Run(st: State, cs: seq<Change>): State
    decreases |cs|
  {
    if cs == [] then st else Run(Changed(st, cs[0]), cs[1..])
  }

  lemma {:induction false} DropKeys(es: seq<Entry>, key: seq<Byte>)
    requires KeysOk(es)
    ensures KeysOk(Drop(es, key))
  {
    hide Lower;
    if es != [] {
      var d := Drop(es[1..], key);
      KeysOkTail(es);
      DropKeys(es[1..], key);
      DropFrom(es[1..], key);
      hide KeysOk;
      if es[0].key != key {
        KeysOkCons(es[0], d);
        assert Drop(es, key) == [es[0]] + d;
      } else {
        assert Drop(es, key) == [] + d == d;
      }
    }
  }

  lemma KeysOkTail(es: seq<Entry>)
    requires es != [] && KeysOk(es)
    ensures KeysOk(es[1..]) && Lower(es[0].key) == es[0].key
    ensures forall e <- es[1..] :: e.key != es[0].key
  {
    hide Lower;
    assert es[0] in es && forall e <- es[1..] :: e in es;
    assert forall i | 0 <= i < |es| - 1 :: es[1..][i] == es[i + 1];
  }

  lemma KeysOkCons(e: Entry, es: seq<Entry>)
    requires KeysOk(es) && Lower(e.key) == e.key && forall d <- es :: d.key != e.key
    ensures KeysOk([e] + es)
  {
    hide Lower;
  }

  lemma LowerTwice(s: seq<Byte>)
    ensures Lower(Lower(s)) == Lower(s)
  {
  }

  lemma SetCustomStored(st: State, key: seq<Byte>, v: Value)
    requires Stored(st) && ValueOk(v)
    ensures Stored(SetCustom(st, key, v))
  {
    var kept := match st.custom case None => [] case Some(es) => Drop(es, Lower(key));
    if st.custom.Some? {
      DropKeys(st.custom.value, Lower(key));
      DropFrom(st.custom.value, Lower(key));
    }
    LowerTwice(key);
    hide ValueOk, Lower, Drop;
    var e := Entry(Lower(key), v);
    assert KeysOk(kept + [e]);
    assert EntriesOk(kept + [e]);
  }

  lemma FullRange(u: nat, n: nat)
    requires u < Pow256(n) && n > 0
    ensures FitsSigned(ToSigned(u, n), n)
  {
    EvenPower(n);
  }

  /** A value that was read is not blank. */
  lemma ReadValueOk(s: seq<Byte>)
    ensures match ReadValue(s) case None => true case Some((v, _)) => ValueOk(v)
  {
    if s != [] && |s| >= 9 {
      FullRange(FromLE(s[1..][..8]), 8);
    }
  }

  lemma {:induction false} ReadCustomStored(st: State, n: nat, s: seq<Byte>)
    requires Stored(st)
    ensures match ReadCustom(st, n, s) case None => true case Some((st', _)) => Stored(st')
    decreases n
  {
    hide Stored, SetCustom, ReadValue;
    if n > 0 && TakeString(s).Some? {
      var key, rest := TakeString(s).value.0, TakeString(s).value.1;
      if ReadValue(rest).Some? {
        ReadValueOk(rest);
        SetCustomStored(st, key, ReadValue(rest).value.0);
        ReadCustomStored(SetCustom(st, key, ReadValue(rest).value.0), n - 1, ReadValue(rest).value.1);
      }
    }
  }

  lemma SetIntStored(st: State, a: IntAttr, v: int)
    requires Stored(st)
    ensures Stored(SetInt(st, a, v))
  {
  }

  lemma SetSubTypeStored(st: State, n: nat)
    requires Stored(st)
    ensures Stored(SetSubType(st, n))
  {
  }

  lemma ReadAttrStored(st: State, code: Byte, s: seq<Byte>)
    requires Stored(st)
    ensures match ReadAttr(st, code, s) case None => true case Some((st', _)) => Stored(st')
  {
    if code == 34 {
      if TakeNat(s, 8).Some? { ReadCustomStored(st, TakeNat(s, 8).value.0, TakeNat(s, 8).value.1); }
    } else {
      forall n: nat ensures Stored(SetSubType(st, n)) { SetSubTypeStored(st, n); }
      forall a, v ensures Stored(SetInt(st, a, v)) { SetIntStored(st, a, v); }
      forall a, w ensures Stored(SetStr(st, a, w)) { SetStrStored(st, a, w); }
      hide Stored, SetSubType, SetInt, SetStr, ReadCustom, Read;
    }
  }

  lemma SetStrStored(st: State, a: StrAttr, w: seq<Byte>)
    requires Stored(st)
    ensures Stored(SetStr(st, a, w))
  {
  }

  /** Setters, scripts and the reader keep an item as items are stored. */
  lemma ChangedStored(st: State, c: Change)
    requires Stored(st) && Possible(c)
    ensures Stored(Changed(st, c))
  {
    match c
    case SetsCustom(key, value) =>
      if ValueOf(value).Some? { SetCustomStored(st, key, ValueOf(value).value); }
    case ReadsEntry(key, bytes) =>
      ReadValueOk(bytes);
      if ReadValue(bytes).Some? { SetCustomStored(st, key, ReadValue(bytes).value.0); }
    case ReadsRecord(code, bytes) => ReadAttrStored(st, code, bytes);
    case SetsNumber(a, v) => SetIntStored(st, a, v);
    case SetsText(a, words) => SetStrStored(st, a, words);
    case SetsPieces(n) => SetSubTypeStored(st, n);
    case SetsAction(n) => SetIntStored(st, ActionId, if n < 100 then 100 else n);
    case RemovesCustom(key) =>
      if st.custom.Some? {
        DropKeys(st.custom.value, Lower(key));
        DropFrom(st.custom.value, Lower(key));
      }
    case _ =>
  }

  lemma {:induction false} RunStored(st: State, cs: seq<Change>)
    requires Stored(st) && forall c <- cs :: Possible(c)
    ensures Stored(Run(st, cs))
    decreases |cs|
  {
    hide Stored, Changed, Possible;
    if cs != [] {
      ChangedStored(st, cs[0]);
      RunStored(Changed(st, cs[0]), cs[1..]);
    }
  }

  /** Whatever setters, scripts and the reader do to a new item, it is stored soundly and what is written of it can be
      read: no custom attribute is ever blank. */
  lemma EveryItemReadable(ty: ItemType, duration: nat, cs: seq<Change>, onto: State, tail: seq<Byte>)
    requires forall c <- cs :: Possible(c)
    requires |Listed(Run(Fresh(ty, duration), cs))| < Pow256(8)
    ensures var x := Run(Fresh(ty, duration), cs);
            Stored(x) && Unserialize(onto, Serialize(x) + ([0] + tail)) == Some(Loaded(Back(onto, x), tail, 0))
  {
    hide Run, Fresh, Stored, Back, Serialize, ReadAttr, Possible, Pow256;
    FreshStored(ty, duration);
    RunStored(Fresh(ty, duration), cs);
    var x := Run(Fresh(ty, duration), cs);
    StoredSound(x);
    ReadBack(onto, x, [0] + tail);
    Behind(0, tail);
  }

  lemma FreshStored(ty: ItemType, duration: nat)
    ensures Stored(Fresh(ty, duration))
  {
  }

  lemma StoredSound(x: State)
    requires Stored(x) && |Listed(x)| < Pow256(8)
    ensures CustomSound(x)
  {
  }

  lemma {:induction false} ConcatSnoc(fs: seq<Field>, f: Field)
    ensures Concat(fs + [f]) == Concat(fs) + FieldBytes(f)
    decreases |fs|
  {
    hide FieldBytes;
    if fs == [] {
      assert [f][1..] == [] && fs + [f] == [f];
      assert FieldBytes(f) + [] == [] + FieldBytes(f);
    } else {
      assert (fs + [f])[1..] == fs[1..] + [f];
      ConcatSnoc(fs[1..], f);
      Assoc(FieldBytes(fs[0]), Concat(fs[1..]), FieldBytes(f));
    }
  }

  // ---------------------------------------------------------------------
  // Items with their contents
  // ---------------------------------------------------------------------

  datatype Tree = Tree(st: State, kids: seq<Tree>)

  /** The item table. */
  type Table = nat -> ItemType

  /** The time to live a new item is given, which may differ from one place in the data to the next. */
  type Dice = (ItemType, nat) -> nat

  function Save(t: Tree): seq<Byte> {
    ToLE(t.st.ty.id, 2) + Serialize(t.st) +
    (if t.st.ty.container then [CONTAINER_ITEMS] + ToLE(|t.kids|, 4) + SaveKids(t.kids) else []) + [0]
  }

  /** The contents, last item first. */
  function SaveKids(kids: seq<Tree>): seq<Byte> {
    if kids == [] then [] else Save(kids[|kids| - 1]) + SaveKids(kids[..|kids| - 1])
  }

  /** Loads an item; nothing comes of it when the type is not known, which counts as success. */
  function Load(table: Table, dice: Dice, s: seq<Byte>): (r: Option<(Option<Tree>, seq<Byte>)>)
    ensures r.Some? ==> |r.value.1| + 2 <= |s|
    decreases |s|, 0
  {
    match TakeNat(s, 2)
    case None => None
    case Some((id, rest)) =>
      var ty := table(id);
      if !ty.known then Some((None, rest))
      else
        match Unserialize(Fresh(ty, dice(ty, |rest|)), rest)
        case None => None
        case Some(Loaded(st, rest, items)) =>
          if !ty.container then Some((Some(Tree(st, [])), rest))
          else
            match LoadKids(table, dice, items, [], rest)
            case None => None
            case Some((kids, rest)) =>
              if rest == [] || rest[0] != 0 then None else Some((Some(Tree(st, kids)), rest[1..]))
  }

  /** Loads the given number of items, each in front of those before it. */
  function LoadKids(table: Table, dice: Dice, n: nat, kids: seq<Tree>, s: seq<Byte>): (r: Option<(seq<Tree>, seq<Byte>)>)
    ensures r.Some? ==> |r.value.1| <= |s|
    decreases |s|, 1
  {
    if n == 0 then Some((kids, s))
    else
      match Load(table, dice, s)
      case None => None
      case Some((t, rest)) => LoadKids(table, dice, n - 1, (match t case Some(k) => [k] + kids case None => kids), rest)
  }

  ghost predicate SameTree(t: Tree, u: Tree) {
    Same(t.st, u.st) && |u.kids| == |t.kids| && forall i | 0 <= i < |t.kids| :: SameTree(t.kids[i], u.kids[i])
  }

  /** A tree of items of known types in which every attribute fits what it is written as. */
  ghost predicate Sound(table: Table, t: Tree) {
    Stored(t.st) && CustomSound(t.st) && (forall duration :: Fits(t.st, duration)) &&
    table(t.st.ty.id) == t.st.ty && t.st.ty.id < Pow256(2) && t.st.ty.known &&
    (t.kids != [] ==> t.st.ty.container) && |t.kids| < Pow256(4) &&
    forall k <- t.kids :: Sound(table, k)
  }

  /** What follows the attributes of an item. */
  function AfterAttributes(t: Tree): seq<Byte> {
    (if t.st.ty.container then [CONTAINER_ITEMS] + ToLE(|t.kids|, 4) + SaveKids(t.kids) else []) + [0]
  }

  lemma SaveSplit(t: Tree, tail: seq<Byte>)
    ensures Save(t) + tail == ToLE(t.st.ty.id, 2) + (Serialize(t.st) + (AfterAttributes(t) + tail))
    ensures t.st.ty.container ==>
      AfterAttributes(t) + tail == [CONTAINER_ITEMS] + (ToLE(|t.kids|, 4) + (SaveKids(t.kids) + ([0] + tail)))
    ensures !t.st.ty.container ==> AfterAttributes(t) + tail == [0] + tail
  {
    hide ToLE, Serialize, SaveKids;
    var id, attrs, after := ToLE(t.st.ty.id, 2), Serialize(t.st), AfterAttributes(t);
    if t.st.ty.container {
      var n, kids := ToLE(|t.kids|, 4), SaveKids(t.kids);
      assert Save(t) + tail == id + (attrs + (after + tail));
      assert after + tail == [CONTAINER_ITEMS] + (n + (kids + ([0] + tail)));
    } else {
      assert after == [0];
      assert Save(t) + tail == id + (attrs + (after + tail));
    }
  }

  /** The attributes of a saved item come back, and the reader stops in front of the contents or behind the end mark. */
  lemma AttributesBack(table: Table, t: Tree, duration: nat, tail: seq<Byte>)
    requires Sound(table, t)
    ensures var x, y := t.st, Back(Fresh(t.st.ty, duration), t.st);
      && Same(x, y)
      && Unserialize(Fresh(x.ty, duration), Serialize(x) + (AfterAttributes(t) + tail)) ==
         Some(if x.ty.container then Loaded(y, SaveKids(t.kids) + ([0] + tail), |t.kids|) else Loaded(y, tail, 0))
  {
    var y := Back(Fresh(t.st.ty, duration), t.st);
    NothingLostIff(t.st, duration);
    ReadBack(Fresh(t.st.ty, duration), t.st, AfterAttributes(t) + tail);
    SaveSplit(t, tail);
    hide Back, Fresh, Serialize, SaveKids, AfterAttributes, Sound, ReadAttr, TakeNat, ToLE;
    if t.st.ty.container {
      var rest := SaveKids(t.kids) + ([0] + tail);
      Behind(CONTAINER_ITEMS, ToLE(|t.kids|, 4) + rest);
      KidCount(table, t);
      TakeNatOfBytes(|t.kids|, 4, rest);
    } else {
      Behind(0, tail);
    }
  }

  lemma KidCount(table: Table, t: Tree)
    requires Sound(table, t)
    ensures |t.kids| < Pow256(4) && t.st.ty.id < Pow256(2) && table(t.st.ty.id) == t.st.ty && t.st.ty.known
    ensures !t.st.ty.container ==> t.kids == []
  {
  }

  lemma LoadPlain(table: Table, dice: Dice, s: seq<Byte>, id: nat, rest: seq<Byte>, l: Loaded)
    requires TakeNat(s, 2) == Some((id, rest)) && table(id).known && !table(id).container
    requires Unserialize(Fresh(table(id), dice(table(id), |rest|)), rest) == Some(l)
    ensures Load(table, dice, s) == Some((Some(Tree(l.st, [])), l.rest))
  {
    hide TakeNat, Unserialize, Fresh, LoadKids;
  }

  lemma LoadFull(table: Table, dice: Dice, s: seq<Byte>, id: nat, rest: seq<Byte>, l: Loaded,
                      kids: seq<Tree>, tail: seq<Byte>)
    requires TakeNat(s, 2) == Some((id, rest)) && table(id).known && table(id).container
    requires Unserialize(Fresh(table(id), dice(table(id), |rest|)), rest) == Some(l)
    requires LoadKids(table, dice, l.items, [], l.rest) == Some((kids, [0] + tail))
    ensures Load(table, dice, s) == Some((Some(Tree(l.st, kids)), tail))
  {
    Behind(0, tail);
    hide TakeNat, Unserialize, Fresh, LoadKids;
  }

  /** The result of loading is the same item, and the given bytes are left. */
  ghost predicate Came(r: Option<(Option<Tree>, seq<Byte>)>, t: Tree, tail: seq<Byte>) {
    r.Some? && r.value.0.Some? && r.value.1 == tail && SameTree(t, r.value.0.value)
  }

  /** The result of loading is the same items in front of those that were there, and the given bytes are left. */
  ghost predicate AllCame(r: Option<(seq<Tree>, seq<Byte>)>, kids: seq<Tree>, acc: seq<Tree>, tail: seq<Byte>) {
    r.Some? && r.value.1 == tail && |r.value.0| == |kids| + |acc| && r.value.0[|kids|..] == acc &&
    forall i | 0 <= i < |kids| :: SameTree(kids[i], r.value.0[i])
  }

  lemma OneMoreCame(r: Option<(seq<Tree>, seq<Byte>)>, init: seq<Tree>, last: Tree, k: Tree, acc: seq<Tree>, tail: seq<Byte>)
    requires AllCame(r, init, [k] + acc, tail) && SameTree(last, k)
    ensures AllCame(r, init + [last], acc, tail)
  {
    hide SameTree;
    var n, all := |init|, r.value.0;
    assert all[n] == all[n..][0] && all[n + 1..] == all[n..][1..];
  }

  lemma Assembled(t: Tree, st: State, kids: seq<Tree>, tail: seq<Byte>)
    requires Same(t.st, st) && AllCame(Some((kids, tail)), t.kids, [], tail)
    ensures SameTree(t, Tree(st, kids))
  {
    hide Same;
  }

  /**
   * Loading a saved item, with whatever comes after it, gives an item with the same written attributes and the same
   * contents in the same order, and leaves exactly what came after.
   */
  lemma {:induction false} TreeBack(table: Table, dice: Dice, t: Tree, tail: seq<Byte>)
    requires Sound(table, t)
    ensures Came(Load(table, dice, Save(t) + tail), t, tail)
    decreases t, 1
  {
    hide Unserialize, Serialize, Fresh, Back, AfterAttributes, SaveKids, TakeNat, ToLE, Same, Sound, LoadKids, Save, Load,
         SameTree, AllCame;
    var rest, ty := Serialize(t.st) + (AfterAttributes(t) + tail), t.st.ty;
    KidCount(table, t);
    KidsAreSound(table, t);
    SaveSplit(t, tail);
    TakeNatOfBytes(ty.id, 2, rest);
    AttributesBack(table, t, dice(ty, |rest|), tail);
    var st := Back(Fresh(ty, dice(ty, |rest|)), t.st);
    if ty.container {
      var l := Loaded(st, SaveKids(t.kids) + ([0] + tail), |t.kids|);
      KidsBack(table, dice, t.kids, [], [0] + tail);
      var kids := AllThere(LoadKids(table, dice, |t.kids|, [], l.rest), t.kids, [0] + tail);
      Assembled(t, st, kids, [0] + tail);
      LoadFull(table, dice, Save(t) + tail, ty.id, rest, l, kids, tail);
    } else {
      NoneCame(t, tail);
      Assembled(t, st, [], tail);
      LoadPlain(table, dice, Save(t) + tail, ty.id, rest, Loaded(st, tail, 0));
    }
  }

  lemma AllThere(r: Option<(seq<Tree>, seq<Byte>)>, kids: seq<Tree>, tail: seq<Byte>) returns (got: seq<Tree>)
    requires AllCame(r, kids, [], tail)
    ensures r == Some((got, tail)) && AllCame(Some((got, tail)), kids, [], tail)
  {
    hide SameTree;
    got := r.value.0;
  }

  lemma NoneCame(t: Tree, tail: seq<Byte>)
    requires t.kids == []
    ensures AllCame(Some(([], tail)), t.kids, [], tail)
  {
  }

  lemma KidsAreSound(table: Table, t: Tree)
    requires Sound(table, t)
    ensures forall k <- t.kids :: Sound(table, k)
  {
  }

  lemma LoadKidsStep(table: Table, dice: Dice, n: nat, acc: seq<Tree>, s: seq<Byte>, t: Tree, rest: seq<Byte>) returns (k: Tree)
    requires Came(Load(table, dice, s), t, rest)
    ensures SameTree(t, k) && LoadKids(table, dice, n + 1, acc, s) == LoadKids(table, dice, n, [k] + acc, rest)
  {
    hide Load, SameTree;
    k := Load(table, dice, s).value.0.value;
  }

  lemma KidsSplit(kids: seq<Tree>)
    requires kids != []
    ensures var last, init := kids[|kids| - 1], kids[..|kids| - 1];
            SaveKids(kids) == Save(last) + SaveKids(init) && last in kids && kids == init + [last]
  {
    hide Save;
  }

  lemma {:induction false} KidsBack(table: Table, dice: Dice, kids: seq<Tree>, acc: seq<Tree>, tail: seq<Byte>)
    requires forall k <- kids :: Sound(table, k)
    ensures AllCame(LoadKids(table, dice, |kids|, acc, SaveKids(kids) + tail), kids, acc, tail)
    decreases kids, 0
  {
    if kids == [] {
      assert SaveKids(kids) + tail == tail;
    } else {
      var n := |kids| - 1;
      var last, init := kids[n], kids[..n];
      KidsSplit(kids);
      hide Load, Save, SaveKids, Sound, SameTree, LoadKids, Came, AllCame;
      var rest := SaveKids(init) + tail;
      Assoc(Save(last), SaveKids(init), tail);
      TreeBack(table, dice, last, rest);
      var k := LoadKidsStep(table, dice, n, acc, Save(last) + rest, last, rest);
      KidsBack(table, dice, init, [k] + acc, tail);
      OneMoreCame(LoadKids(table, dice, n, [k] + acc, rest), init, last, k, acc, tail);
    }
  }

  // ---------------------------------------------------------------------
  // The loops over the streams
  // ---------------------------------------------------------------------

  lemma {:induction false} ConcatAppend(a: seq<Field>, b: seq<Field>)
    ensures Concat(a + b) == Concat(a) + Concat(b)
    decreases |a|
  {
    hide FieldBytes;
    if a == [] {
      assert a + b == b && Concat(a) + Concat(b) == Concat(b);
    } else {
      assert (a + b)[1..] == a[1..] + b;
      ConcatAppend(a[1..], b);
      Assoc(FieldBytes(a[0]), Concat(a[1..]), Concat(b));
    }
  }

  method WriteValue(stream: PropWriteStream, v: Value)
    modifies stream
    ensures stream.buffer == old(stream.buffer) + ValueBytes(v)
  {
    hide StringBytes, ToLE;
    ghost var b := stream.buffer;
    match v
    case Blank => stream.WriteByte(0);
    case Str(str) =>
      stream.WriteByte(1);
      stream.WriteString(str);
      Assoc(b, [1], StringBytes(str));
    case Num(num) =>
      stream.WriteByte(2);
      stream.Write(ToUnsigned(num, 8), 8);
      Assoc(b, [2], ToLE(ToUnsigned(num, 8), 8));
    case Real(raw) =>
      stream.WriteByte(3);
      stream.Write(raw, 8);
      Assoc(b, [3], ToLE(raw, 8));
    case Flag(flag) =>
      stream.WriteByte(4);
      stream.WriteByte(if flag then 1 else 0);
      Assoc(b, [4], [if flag then 1 else 0]);
  }

  method WriteEntries(stream: PropWriteStream, es: seq<Entry>)
    modifies stream
    ensures stream.buffer == old(stream.buffer) + EntriesBytes(es)
  {
    hide StringBytes, ValueBytes;
    ghost var b := stream.buffer;
    var i := 0;
    assert es[0..] == es;
    while i < |es|
      invariant i <= |es| && stream.buffer + EntriesBytes(es[i..]) == b + EntriesBytes(es)
    {
      ghost var now, k, v, more := stream.buffer, StringBytes(es[i].key), ValueBytes(es[i].value), EntriesBytes(es[i + 1..]);
      EntriesStep(es, i);
      stream.WriteString(es[i].key);
      WriteValue(stream, es[i].value);
      assert ((now + k) + v) + more == now + (k + (v + more));
      i := i + 1;
    }
    assert es[i..] == [] && stream.buffer + [] == stream.buffer;
  }

  lemma EntriesStep(es: seq<Entry>, i: nat)
    requires i < |es|
    ensures EntriesBytes(es[i..]) == StringBytes(es[i].key) + (ValueBytes(es[i].value) + EntriesBytes(es[i + 1..]))
  {
    assert es[i..][1..] == es[i + 1..];
  }

  /** Writes one record. */
  method WriteField(stream: PropWriteStream, f: Field)
    modifies stream
    ensures stream.buffer == old(stream.buffer) + FieldBytes(f)
  {
    hide StringBytes, ToLE, EntriesBytes;
    ghost var b := stream.buffer;
    match f
    case Pieces(n) =>
      stream.WriteByte(15);
      stream.WriteByte(n);
      Assoc(b, [15], [n]);
    case Charged(n) =>
      stream.WriteByte(22);
      stream.Write(n, 2);
      Assoc(b, [22], ToLE(n, 2));
    case Action(n) =>
      stream.WriteByte(4);
      stream.Write(n, 2);
      Assoc(b, [4], ToLE(n, 2));
    case Words(a, words) =>
      stream.WriteByte(CodeOfStr(a));
      stream.WriteString(words);
      Assoc(b, [CodeOfStr(a)], StringBytes(words));
    case Number(a, raw) =>
      stream.WriteByte(CodeOfInt(a));
      stream.Write(raw, Width(a));
      Assoc(b, [CodeOfInt(a)], ToLE(raw, Width(a)));
    case Decaying(state) =>
      stream.WriteByte(17);
      stream.WriteByte(state);
      Assoc(b, [17], [state]);
    case Custom(es) =>
      stream.WriteByte(34);
      stream.Write(|es|, 8);
      WriteEntries(stream, es);
      assert ((b + [34]) + ToLE(|es|, 8)) + EntriesBytes(es) == b + ([34] + (ToLE(|es|, 8) + EntriesBytes(es)));
  }

  /** Writes the records that there are, one after the other. */
  method WriteAll(stream: PropWriteStream, fs: seq<Field>)
    modifies stream
    ensures stream.buffer == old(stream.buffer) + Concat(fs)
  {
    hide FieldBytes;
    ghost var b := stream.buffer;
    var i := 0;
    while i < |fs|
      invariant i <= |fs| && stream.buffer == b + Concat(fs[..i])
    {
      assert fs[..i + 1] == fs[..i] + [fs[i]];
      ConcatSnoc(fs[..i], fs[i]);
      Assoc(b, Concat(fs[..i]), FieldBytes(fs[i]));
      WriteField(stream, fs[i]);
      i := i + 1;
    }
    assert fs[..i] == fs;
  }

  method SerializeAttr(stream: PropWriteStream, st: State)
    modifies stream
    ensures stream.buffer == old(stream.buffer) + Serialize(st)
  {
    hide HeadFields, TextFields, NumberFields, CustomFields, Concat;
    ghost var b := stream.buffer;
    ghost var h, t, n, c := HeadFields(st), TextFields(st), NumberFields(st), CustomFields(st);
    WriteAll(stream, HeadFields(st));
    WriteAll(stream, TextFields(st));
    WriteAll(stream, NumberFields(st));
    WriteAll(stream, CustomFields(st));
    ConcatAppend(h + t + n, c);
    ConcatAppend(h + t, n);
    ConcatAppend(h, t);
    assert (((b + Concat(h)) + Concat(t)) + Concat(n)) + Concat(c) == b + (((Concat(h) + Concat(t)) + Concat(n)) + Concat(c));
  }

  method ReadValueFrom(stream: PropStream) returns (r: Option<Value>)
    requires stream.Valid()
    modifies stream
    ensures stream.Valid()
    ensures match ReadValue(old(stream.Rest()))
            case None => r == None
            case Some((v, rest)) => r == Some(v) && stream.Rest() == rest
  {
    hide TakeString, TakeNat, FromLE;
    FirstByte(stream.Rest());
    var pos := stream.Read(1);
    if pos == None { return None; }
    match pos.value
    case 1 =>
      var str := stream.ReadString();
      return match str case None => None case Some(s) => Some(Str(s));
    case 2 =>
      var v := stream.Read(8);
      return match v case None => None case Some(n) => Some(Num(ToSigned(n, 8)));
    case 3 =>
      var v := stream.Read(8);
      return match v case None => None case Some(n) => Some(Real(n));
    case 4 =>
      var v := stream.Read(1);
      return match v case None => None case Some(n) => Some(Flag(n != 0));
    case _ =>
      return None;
  }

  method ReadCustomFrom(stream: PropStream, st: State, size: nat) returns (r: Option<State>)
    requires stream.Valid()
    modifies stream
    ensures stream.Valid()
    ensures match ReadCustom(st, size, old(stream.Rest()))
            case None => r == None
            case Some((st', rest)) => r == Some(st') && stream.Rest() == rest
  {
    hide TakeString, ReadValue, SetCustom;
    var now := st;
    var i := 0;
    while i < size
      invariant i <= size && stream.Valid()
      invariant ReadCustom(now, size - i, stream.Rest()) == ReadCustom(st, size, old(stream.Rest()))
    {
      var key := stream.ReadString();
      if key == None { return None; }
      var value := ReadValueFrom(stream);
      if value == None { return None; }
      now := SetCustom(now, key.value, value.value);
      i := i + 1;
    }
    return Some(now);
  }

  method ReadAttrFrom(stream: PropStream, code: Byte, st: State) returns (r: Option<State>)
    requires stream.Valid()
    modifies stream
    ensures stream.Valid()
    ensures match ReadAttr(st, code, old(stream.Rest()))
            case None => r == None
            case Some((st', rest)) => r == Some(st') && stream.Rest() == rest
  {
    hide TakeString, TakeNat, ReadCustom, SetInt, SetStr, SetSubType, SetActionId, Read;
    if code == 15 || code == 12 {
      var n := stream.Read(1);
      return match n case None => None case Some(v) => Some(SetSubType(st, v));
    } else if code == 22 {
      var n := stream.Read(2);
      return match n case None => None case Some(v) => Some(SetSubType(st, v));
    } else if code == 4 {
      var n := stream.Read(2);
      return match n case None => None case Some(v) => Some(SetActionId(st, v));
    } else if code == 5 {
      var n := stream.Read(2);
      return match n case None => None case Some(v) => Some(if UniqueId in st.ints then st else SetInt(st, UniqueId, v));
    } else if code == 17 {
      var n := stream.Read(1);
      return match n case None => None case Some(v) => Some(if v != FALSE_STATE then SetInt(st, DecayState, PENDING_STATE) else st);
    } else if code == 34 {
      var size := stream.Read(8);
      if size == None { return None; }
      r := ReadCustomFrom(stream, st, size.value);
    } else if StrCode(code).Some? {
      var str := stream.ReadString();
      return match str case None => None case Some(s) => Some(SetStr(st, StrCode(code).value, s));
    } else if IntCode(code).Some? {
      var a := IntCode(code).value;
      var raw := stream.Read(Width(a));
      return match raw case None => None case Some(v) => Some(SetInt(st, a, Read(a, v)));
    } else if SkipWidth(code) > 0 {
      var ok := stream.Skip(SkipWidth(code));
      return if ok then Some(st) else None;
    } else {
      return None;
    }
  }

  /** Reads attributes onto an item; for a container also how many items follow. */
  method UnserializeAttr(stream: PropStream, st0: State) returns (r: Option<State>, items: nat)
    requires stream.Valid()
    modifies stream
    ensures stream.Valid()
    ensures match Unserialize(st0, old(stream.Rest()))
            case None => r == None
            case Some(l) => r == Some(l.st) && stream.Rest() == l.rest && items == l.items
  {
    hide TakeNat, ReadAttr;
    var st := st0;
    items := 0;
    while true
      invariant stream.Valid() && items == 0
      invariant Unserialize(st, stream.Rest()) == Unserialize(st0, old(stream.Rest()))
      decreases |stream.Rest()|
    {
      FirstByte(stream.Rest());
      var code := stream.Read(1);
      if code == None || code.value == 0 { return Some(st), 0; }
      if code.value == CONTAINER_ITEMS && st.ty.container {
        var n := stream.Read(4);
        if n == None { return None, 0; }
        return Some(st), n.value;
      }
      var next := ReadAttrFrom(stream, code.value, st);
      if next == None { return None, 0; }
      st := next.value;
    }
  }

  method SaveItem(stream: PropWriteStream, t: Tree)
    modifies stream
    ensures stream.buffer == old(stream.buffer) + Save(t)
    decreases t
  {
    hide Serialize, ToLE, SaveKids;
    ghost var b, id, attrs, count := stream.buffer, ToLE(t.st.ty.id, 2), Serialize(t.st), ToLE(|t.kids|, 4);
    stream.Write(t.st.ty.id, 2);
    SerializeAttr(stream, t.st);
    ghost var contents: seq<Byte> := [];
    if t.st.ty.container {
      stream.WriteByte(CONTAINER_ITEMS);
      stream.Write(|t.kids|, 4);
      contents := [CONTAINER_ITEMS] + count + SaveKids(t.kids);
      ghost var now := stream.buffer;
      assert t.kids[..|t.kids|] == t.kids;
      var i: nat := |t.kids|;
      while i > 0
        invariant i <= |t.kids| && stream.buffer + SaveKids(t.kids[..i]) == now + SaveKids(t.kids)
      {
        ghost var before := stream.buffer;
        i := i - 1;
        KidsSplit(t.kids[..i + 1]);
        assert t.kids[..i + 1][..i] == t.kids[..i];
        SaveItem(stream, t.kids[i]);
        Assoc(before, Save(t.kids[i]), SaveKids(t.kids[..i]));
      }
      NoKids(t.kids[..0]);
      assert stream.buffer + [] == stream.buffer;
      ghost var x, k := (b + id) + attrs, SaveKids(t.kids);
      assert ((x + [CONTAINER_ITEMS]) + count) + k == x + ([CONTAINER_ITEMS] + count + k);
    } else {
      assert stream.buffer + [] == stream.buffer;
    }
    stream.WriteByte(0);
    assert (((b + id) + attrs) + contents) + [0] == b + (id + attrs + contents + [0]);
  }

  lemma NoKids(kids: seq<Tree>)
    requires kids == []
    ensures SaveKids(kids) == []
  {
  }

  /** Loads an item; `made` is what came of it. */
  method LoadItem(stream: PropStream, table: Table, dice: Dice) returns (ok: bool, made: Option<Tree>)
    requires stream.Valid()
    modifies stream
    ensures stream.Valid()
    ensures match Load(table, dice, old(stream.Rest()))
            case None => !ok
            case Some((t, rest)) => ok && made == t && stream.Rest() == rest
    decreases |stream.Rest()|, 0
  {
    hide FromLE, Unserialize, Fresh;
    var id := stream.Read(2);
    if id == None { return false, None; }
    var ty := table(id.value);
    if !ty.known { return true, None; }
    var st, items := UnserializeAttr(stream, Fresh(ty, dice(ty, |stream.Rest()|)));
    if st == None { return false, None; }
    if !ty.container { return true, Some(Tree(st.value, [])); }
    var kids;
    ok, kids := LoadContainer(stream, table, dice, items);
    made := Some(Tree(st.value, kids));
  }

  /** Loads the contents of a container and the mark behind them. */
  method LoadContainer(stream: PropStream, table: Table, dice: Dice, serializationCount: nat) returns (ok: bool, kids: seq<Tree>)
    requires stream.Valid()
    modifies stream
    ensures stream.Valid()
    ensures match LoadKids(table, dice, serializationCount, [], old(stream.Rest()))
            case None => !ok
            case Some((loaded, rest)) =>
              if rest == [] || rest[0] != 0 then !ok else ok && kids == loaded && stream.Rest() == rest[1..]
    decreases |stream.Rest()|, 1
  {
    hide TakeNat, Load;
    kids := [];
    var n := serializationCount;
    while n > 0
      invariant stream.Valid() && |stream.Rest()| <= |old(stream.Rest())|
      invariant LoadKids(table, dice, n, kids, stream.Rest()) == LoadKids(table, dice, serializationCount, [], old(stream.Rest()))
    {
      var made;
      ok, made := LoadItem(stream, table, dice);
      if !ok { return false, []; }
      if made.Some? {
        kids := [made.value] + kids;
      }
      n := n - 1;
    }
    FirstByte(stream.Rest());
    var endAttr := stream.Read(1);
    ok := endAttr != None && endAttr.value == 0;
  }
}
