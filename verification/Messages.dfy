/** The messages `ServerInfo`, `ServerRegisterRQ` and `UpdateMatchRQ` as values: which fields they
    write, how a parsed field changes them, how two of them merge, and how long they are.
 */
module Messages {
  import opened Bytes
  import opened Utf8
  import opened Wire

  /// Fields that are left out when they hold the default

  function IntField(number: nat, x: int32): seq<Field> {
    if x == 0 then [] else [VarintField(number, SignExtend(x))]
  }

  function StringField(number: nat, data: bytes): seq<Field> {
    if data == [] then [] else [BytesField(number, data)]
  }

  function IntFieldSize(x: int32): nat {
    if x == 0 then 0 else 1 + Int32Size(x)
  }

  function DelimitedSize(n: nat): nat {
    VarintSize(n) + n
  }

  /** The last non-default value wins. */
  function Override(x: int32, y: int32): int32 {
    if y == 0 then x else y
  }

  lemma FoldOne<M>(step: (M, Field) -> Option<M>, m: M, f: Field)
    ensures Fold(step, m, [f]) == step(m, f)
  {
    assert [f][..0] == [];
    assert Fold(step, m, []) == Some(m);
  }

  lemma EncodeOne(f: Field)
    ensures EncodeFields([f]) == EncodeField(f)
  {
    assert [f][..0] == [];
    assert EncodeFields([]) + EncodeField(f) == EncodeField(f);
  }

  lemma EncodeNone()
    ensures EncodeFields([]) == []
  {
  }

  function Sum(s: seq<nat>): nat {
    if s == [] then 0 else Sum(s[..|s| - 1]) + s[|s| - 1]
  }

  lemma {:induction false} SumBounds(s: seq<nat>, i: nat)
    requires i < |s|
    ensures s[i] <= Sum(s)
    decreases |s|
  {
    if i < |s| - 1 { SumBounds(s[..|s| - 1], i); }
  }

  lemma {:induction false} EncodedLength(fs: seq<Field>, sizes: seq<nat>)
    requires |sizes| == |fs| && forall i :: 0 <= i < |fs| ==> |EncodeField(fs[i])| == sizes[i]
    ensures |EncodeFields(fs)| == Sum(sizes)
    decreases |fs|
  {
    if fs != [] {
      var front := fs[..|fs| - 1];
      assert forall i :: 0 <= i < |front| ==> front[i] == fs[i];
      EncodedLength(front, sizes[..|fs| - 1]);
    }
  }

  lemma EncodeSnoc(fs: seq<Field>, f: Field, gs: seq<Field>)
    requires gs == fs + [f]
    ensures |EncodeFields(gs)| == |EncodeFields(fs)| + |EncodeField(f)|
  {
    assert gs[..|gs| - 1] == fs;
  }

  lemma BytesFieldLength(number: nat, data: bytes)
    requires 1 <= number < 16
    ensures |EncodeField(BytesField(number, data))| == 1 + DelimitedSize(|data|)
  {
    VarintLength(|data|);
  }

  lemma IntFieldLength(number: nat, x: int32)
    requires 1 <= number < 16
    ensures |EncodeFields(IntField(number, x))| == IntFieldSize(x)
  {
    if x != 0 {
      EncodeOne(VarintField(number, SignExtend(x)));
      Int32Length(x);
    }
  }

  lemma StringFieldLength(number: nat, data: bytes)
    requires 1 <= number < 16
    ensures |EncodeFields(StringField(number, data))| == if data == [] then 0 else 1 + DelimitedSize(|data|)
  {
    if data != [] {
      EncodeOne(BytesField(number, data));
      BytesFieldLength(number, data);
    }
  }

  /** What the serializers write, apart from the limit on lengths. */
  predicate Shaped(f: Field) {
    && 1 <= f.number < 16
    && match f
       case VarintField(_, value) => value < 0x1_0000_0000_0000_0000
       case BytesField(_, data) => true
       case _ => false
  }

  predicate AllShaped(fs: seq<Field>) {
    forall i :: 0 <= i < |fs| ==> Shaped(fs[i])
  }

  lemma ShapedAppend(fs: seq<Field>, gs: seq<Field>)
    requires AllShaped(fs) && AllShaped(gs)
    ensures AllShaped(fs + gs)
  {
  }

  lemma FoldSnoc<M>(step: (M, Field) -> Option<M>, m: M, fs: seq<Field>, f: Field)
    ensures Fold(step, m, fs + [f]) == Bind(step, Fold(step, m, fs), f)
  {
    assert (fs + [f])[..|fs|] == fs;
  }

  lemma EncodedLength4(a: seq<Field>, b: seq<Field>, c: seq<Field>, d: seq<Field>)
    ensures |EncodeFields(a + b + c + d)|
         == |EncodeFields(a)| + |EncodeFields(b)| + |EncodeFields(c)| + |EncodeFields(d)|
  {
    EncodeFieldsAppend(a + b + c, d);
    EncodeFieldsAppend(a + b, c);
    EncodeFieldsAppend(a, b);
  }

  /** A message below the 2 GB limit holds only fields below the limit. */
  lemma {:induction false} SmallMessageIsWritable(fs: seq<Field>)
    requires AllShaped(fs) && |EncodeFields(fs)| <= INT_MAX
    ensures AllWritable(fs)
    decreases |fs|
  {
    if fs != [] {
      var front, last := fs[..|fs| - 1], fs[|fs| - 1];
      SmallMessageIsWritable(front);
      assert Writable(last);
      forall i | 0 <= i < |fs| ensures Writable(fs[i]) {
        if i < |fs| - 1 { assert fs[i] == front[i]; }
      }
    }
  }

  /// ServerInfo

  datatype Info = Info(kind: int32, port: int32, sid: int32, ip: bytes)

  const DEFAULT_INFO := Info(0, 0, 0, [])

  function InfoFields(m: Info): seq<Field> {
    IntField(1, m.kind) + IntField(2, m.port) + IntField(3, m.sid) + StringField(4, m.ip)
  }

  function SerializeInfo(m: Info): bytes {
    EncodeFields(InfoFields(m))
  }

  function InfoStep(m: Info, f: Field): Option<Info> {
    match f
    case VarintField(1, v) => Some(m.(kind := Truncate(v)))
    case VarintField(2, v) => Some(m.(port := Truncate(v)))
    case VarintField(3, v) => Some(m.(sid := Truncate(v)))
    case BytesField(4, data) => if ValidUtf8(data) then Some(m.(ip := data)) else None
    case _ => Some(m)
  }

  function ParseInfo(m: Info, s: bytes): Option<Info> {
    Parse(InfoStep, m, s)
  }

  function MergeInfo(m: Info, from: Info): Info {
    Info(Override(m.kind, from.kind), Override(m.port, from.port), Override(m.sid, from.sid),
         if from.ip == [] then m.ip else from.ip)
  }

  function InfoSize(m: Info): nat {
    (if m.ip == [] then 0 else 1 + DelimitedSize(|m.ip|))
    + IntFieldSize(m.kind) + IntFieldSize(m.port) + IntFieldSize(m.sid)
  }

  lemma FoldInfo(m: Info, b: Info)
    ensures Fold(InfoStep, m, InfoFields(b)) == if ValidUtf8(b.ip) then Some(MergeInfo(m, b)) else None
  {
    var one, two, three, four := IntField(1, b.kind), IntField(2, b.port), IntField(3, b.sid), StringField(4, b.ip);
    FoldAppend(InfoStep, m, one + two + three, four);
    FoldAppend(InfoStep, m, one + two, three);
    FoldAppend(InfoStep, m, one, two);
    TruncateSignExtend(b.kind);
    TruncateSignExtend(b.port);
    TruncateSignExtend(b.sid);
    var m1 := m.(kind := Override(m.kind, b.kind));
    var m2 := m1.(port := Override(m.port, b.port));
    var m3 := m2.(sid := Override(m.sid, b.sid));
    assert Fold(InfoStep, m, one) == Some(m1) by { FoldOne(InfoStep, m, VarintField(1, SignExtend(b.kind))); }
    assert Fold(InfoStep, m1, two) == Some(m2) by { FoldOne(InfoStep, m1, VarintField(2, SignExtend(b.port))); }
    assert Fold(InfoStep, m2, three) == Some(m3) by { FoldOne(InfoStep, m2, VarintField(3, SignExtend(b.sid))); }
    FoldOne(InfoStep, m3, BytesField(4, b.ip));
  }

  lemma InfoShaped(m: Info)
    ensures AllShaped(InfoFields(m))
  {
  }

  /** The byte size is the length of the serialization. */
  lemma InfoSizeAgrees(m: Info)
    ensures |SerializeInfo(m)| == InfoSize(m)
  {
    var one, two, three, four := IntField(1, m.kind), IntField(2, m.port), IntField(3, m.sid), StringField(4, m.ip);
    EncodedLength4(one, two, three, four);
    IntFieldLength(1, m.kind);
    IntFieldLength(2, m.port);
    IntFieldLength(3, m.sid);
    StringFieldLength(4, m.ip);
  }

  /** Parsing a serialization into any message merges, and fails exactly on a string that is not UTF-8. */
  lemma ParseInfoMerges(m: Info, b: Info)
    requires InfoSize(b) <= INT_MAX
    ensures ParseInfo(m, SerializeInfo(b)) == if ValidUtf8(b.ip) then Some(MergeInfo(m, b)) else None
  {
    InfoSizeAgrees(b);
    InfoShaped(b);
    SmallMessageIsWritable(InfoFields(b));
    ParseOfWhole(InfoStep, m, InfoFields(b));
    FoldInfo(m, b);
  }

  /// ServerRegisterRQ

  datatype Register = Register(sid: int32, kind: int32, connectTypes: seq<int32>, listeners: seq<Info>)

  const DEFAULT_REGISTER := Register(0, 0, [], [])

  function PackedField(number: nat, xs: seq<int32>): seq<Field> {
    if xs == [] then [] else [BytesField(number, Packed(xs))]
  }

  function ListenerFields(ls: seq<Info>): seq<Field> {
    seq(|ls|, i requires 0 <= i < |ls| => BytesField(4, SerializeInfo(ls[i])))
  }

  function RegisterFields(m: Register): seq<Field> {
    IntField(1, m.sid) + IntField(2, m.kind) + PackedField(3, m.connectTypes) + ListenerFields(m.listeners)
  }

  function SerializeRegister(m: Register): bytes {
    EncodeFields(RegisterFields(m))
  }

  function RegisterStep(m: Register, f: Field): Option<Register> {
    match f
    case VarintField(1, v) => Some(m.(sid := Truncate(v)))
    case VarintField(2, v) => Some(m.(kind := Truncate(v)))
    case VarintField(3, v) => Some(m.(connectTypes := m.connectTypes + [Truncate(v)]))
    case BytesField(3, data) =>
      (match ReadPacked(data)
       case None => None
       case Some(xs) => Some(m.(connectTypes := m.connectTypes + xs)))
    case BytesField(4, data) =>
      (match ParseInfo(DEFAULT_INFO, data)
       case None => None
       case Some(info) => Some(m.(listeners := m.listeners + [info])))
    case _ => Some(m)
  }

  function ParseRegister(m: Register, s: bytes): Option<Register> {
    Parse(RegisterStep, m, s)
  }

  function MergeRegister(m: Register, from: Register): Register {
    Register(Override(m.sid, from.sid), Override(m.kind, from.kind),
             m.connectTypes + from.connectTypes, m.listeners + from.listeners)
  }

  function ListenersSize(ls: seq<Info>): nat {
    Sum(seq(|ls|, i requires 0 <= i < |ls| => 1 + DelimitedSize(InfoSize(ls[i]))))
  }

  function PackedFieldSize(xs: seq<int32>): nat {
    if PackedSize(xs) == 0 then 0 else 1 + DelimitedSize(PackedSize(xs))
  }

  function RegisterSize(m: Register): nat {
    PackedFieldSize(m.connectTypes) + ListenersSize(m.listeners) + IntFieldSize(m.sid) + IntFieldSize(m.kind)
  }

  predicate ListenersUtf8(ls: seq<Info>) {
    forall i :: 0 <= i < |ls| ==> ValidUtf8(ls[i].ip)
  }

  lemma ListenerFieldLength(info: Info)
    ensures |EncodeField(BytesField(4, SerializeInfo(info)))| == 1 + DelimitedSize(InfoSize(info))
  {
    BytesFieldLength(4, SerializeInfo(info));
    InfoSizeAgrees(info);
  }

  lemma ListenersLength(ls: seq<Info>)
    ensures |EncodeFields(ListenerFields(ls))| == ListenersSize(ls)
  {
    var fs := ListenerFields(ls);
    var sizes := seq(|ls|, i requires 0 <= i < |ls| => 1 + DelimitedSize(InfoSize(ls[i])));
    forall i | 0 <= i < |fs| ensures |EncodeField(fs[i])| == sizes[i] {
      ListenerFieldLength(ls[i]);
    }
    EncodedLength(fs, sizes);
  }

  lemma PackedFieldLength(xs: seq<int32>)
    ensures |EncodeFields(PackedField(3, xs))| == PackedFieldSize(xs)
  {
    PackedRoundTrip(xs);
    if xs != [] {
      EncodeOne(BytesField(3, Packed(xs)));
      BytesFieldLength(3, Packed(xs));
    }
  }

  lemma RegisterShaped(m: Register)
    ensures AllShaped(RegisterFields(m))
  {
    var one, two, three, four :=
      IntField(1, m.sid), IntField(2, m.kind), PackedField(3, m.connectTypes), ListenerFields(m.listeners);
    ShapedAppend(one, two);
    ShapedAppend(one + two, three);
    ShapedAppend(one + two + three, four);
  }

  lemma RegisterSizeAgrees(m: Register)
    ensures |SerializeRegister(m)| == RegisterSize(m)
  {
    var one, two, three, four :=
      IntField(1, m.sid), IntField(2, m.kind), PackedField(3, m.connectTypes), ListenerFields(m.listeners);
    EncodedLength4(one, two, three, four);
    IntFieldLength(1, m.sid);
    IntFieldLength(2, m.kind);
    PackedFieldLength(m.connectTypes);
    ListenersLength(m.listeners);
  }

  lemma StepListener(m: Register, info: Info)
    requires InfoSize(info) <= INT_MAX
    ensures RegisterStep(m, BytesField(4, SerializeInfo(info))) ==
            if ValidUtf8(info.ip) then Some(m.(listeners := m.listeners + [info])) else None
  {
    ParseInfoMerges(DEFAULT_INFO, info);
    assert MergeInfo(DEFAULT_INFO, info) == info;
  }

  /** The message after a list of listeners has been parsed. */
  function WithListeners(m: Register, ls: seq<Info>): Option<Register> {
    if ListenersUtf8(ls) then Some(m.(listeners := m.listeners + ls)) else None
  }

  lemma WithListenersSnoc(m: Register, front: seq<Info>, last: Info)
    requires InfoSize(last) <= INT_MAX
    ensures WithListeners(m, front + [last]) ==
            Bind(RegisterStep, WithListeners(m, front), BytesField(4, SerializeInfo(last)))
  {
    ListenersUtf8Snoc(front, last);
    var m' := m.(listeners := m.listeners + front);
    StepListener(m', last);
    assert m'.listeners + [last] == m.listeners + (front + [last]);
  }

  lemma ListenersUtf8Snoc(front: seq<Info>, last: Info)
    ensures ListenersUtf8(front + [last]) <==> ListenersUtf8(front) && ValidUtf8(last.ip)
  {
    var ls := front + [last];
    if ListenersUtf8(ls) {
      assert ls[|front|] == last;
      forall i | 0 <= i < |front| ensures ValidUtf8(front[i].ip) { assert front[i] == ls[i]; }
    }
  }

  predicate ListenersSmall(ls: seq<Info>) {
    forall i :: 0 <= i < |ls| ==> InfoSize(ls[i]) <= INT_MAX
  }

  lemma SizeBoundsListeners(ls: seq<Info>)
    requires ListenersSize(ls) <= INT_MAX
    ensures ListenersSmall(ls)
  {
    var sizes := seq(|ls|, i requires 0 <= i < |ls| => 1 + DelimitedSize(InfoSize(ls[i])));
    forall i | 0 <= i < |ls| ensures InfoSize(ls[i]) <= INT_MAX {
      SumBounds(sizes, i);
    }
  }

  lemma FoldListeners(m: Register, ls: seq<Info>)
    requires ListenersSmall(ls)
    ensures Fold(RegisterStep, m, ListenerFields(ls)) == WithListeners(m, ls)
  {
    var fs := ListenerFields(ls);
    var stages := seq(|ls| + 1, i requires 0 <= i <= |ls| => WithListeners(m, ls[..i]));
    assert stages[0] == Some(m) by { assert m.listeners + ls[..0] == m.listeners; }
    forall i | 0 <= i < |fs| ensures stages[i + 1] == Bind(RegisterStep, stages[i], fs[i]) {
      WithListenersSnoc(m, ls[..i], ls[i]);
      assert ls[..i] + [ls[i]] == ls[..i + 1];
    }
    FoldStages(RegisterStep, m, fs, stages);
    assert ls[..|ls|] == ls;
  }

  lemma FoldRegister(m: Register, b: Register)
    requires ListenersSmall(b.listeners)
    ensures Fold(RegisterStep, m, RegisterFields(b)) ==
            if ListenersUtf8(b.listeners) then Some(MergeRegister(m, b)) else None
  {
    var one, two, three, four :=
      IntField(1, b.sid), IntField(2, b.kind), PackedField(3, b.connectTypes), ListenerFields(b.listeners);
    FoldAppend(RegisterStep, m, one + two + three, four);
    FoldAppend(RegisterStep, m, one + two, three);
    FoldAppend(RegisterStep, m, one, two);
    TruncateSignExtend(b.sid);
    TruncateSignExtend(b.kind);
    PackedRoundTrip(b.connectTypes);
    var m1 := m.(sid := Override(m.sid, b.sid));
    var m2 := m1.(kind := Override(m.kind, b.kind));
    var m3 := m2.(connectTypes := m.connectTypes + b.connectTypes);
    assert Fold(RegisterStep, m, one) == Some(m1) by { FoldOne(RegisterStep, m, VarintField(1, SignExtend(b.sid))); }
    assert Fold(RegisterStep, m1, two) == Some(m2) by { FoldOne(RegisterStep, m1, VarintField(2, SignExtend(b.kind))); }
    assert Fold(RegisterStep, m2, three) == Some(m3) by {
      FoldOne(RegisterStep, m2, BytesField(3, Packed(b.connectTypes)));
      assert m.connectTypes + [] == m.connectTypes;
    }
    FoldListeners(m3, b.listeners);
  }

  /** Parsing a serialization into any message is `MergeFrom`, and fails exactly when a listener's
      address is not UTF-8. */
  lemma ParseRegisterMerges(m: Register, b: Register)
    requires RegisterSize(b) <= INT_MAX
    ensures ParseRegister(m, SerializeRegister(b)) ==
            if ListenersUtf8(b.listeners) then Some(MergeRegister(m, b)) else None
  {
    RegisterSizeAgrees(b);
    RegisterShaped(b);
    SmallMessageIsWritable(RegisterFields(b));
    ParseOfWhole(RegisterStep, m, RegisterFields(b));
    SizeBoundsListeners(b.listeners);
    FoldRegister(m, b);
  }

  /** Round trip, for every message below the size limit: the same message comes back if and only
      if its strings are UTF-8. */
  lemma RegisterRoundTrip(m: Register)
    requires RegisterSize(m) <= INT_MAX
    ensures ParseRegister(DEFAULT_REGISTER, SerializeRegister(m)) == Some(m) <==> ListenersUtf8(m.listeners)
  {
    ParseRegisterMerges(DEFAULT_REGISTER, m);
    assert MergeRegister(DEFAULT_REGISTER, m) == m;
  }

  /** Into any message, concatenated serializations parse as one merge after the other, and fail exactly when
      a string of either is not UTF-8. */
  lemma RegisterMergeHomomorphism(m: Register, a: Register, b: Register)
    requires RegisterSize(a) <= INT_MAX && RegisterSize(b) <= INT_MAX
    ensures ParseRegister(m, SerializeRegister(a) + SerializeRegister(b)) ==
            if ListenersUtf8(a.listeners) && ListenersUtf8(b.listeners)
            then Some(MergeRegister(MergeRegister(m, a), b)) else None
  {
    hide ListenersUtf8, MergeRegister, RegisterFields, Fold, Parse, EncodeFields;
    RegisterSizeAgrees(a);
    RegisterShaped(a);
    SmallMessageIsWritable(RegisterFields(a));
    SizeBoundsListeners(a.listeners);
    ParseOfEncoding(RegisterStep, m, RegisterFields(a), SerializeRegister(b));
    FoldRegister(m, a);
    ParseRegisterMerges(MergeRegister(m, a), b);
  }

  /** Merging is associative and the empty message is neutral. */
  lemma RegisterMergeMonoid(a: Register, b: Register, c: Register)
    ensures MergeRegister(MergeRegister(a, b), c) == MergeRegister(a, MergeRegister(b, c))
    ensures MergeRegister(DEFAULT_REGISTER, a) == a == MergeRegister(a, DEFAULT_REGISTER)
  {
    assert a.connectTypes + b.connectTypes + c.connectTypes == a.connectTypes + (b.connectTypes + c.connectTypes);
    assert a.listeners + b.listeners + c.listeners == a.listeners + (b.listeners + c.listeners);
  }

  /// UpdateMatchRQ

  datatype Update = Update(mid: int32, properties: map<bytes, bytes>)

  const DEFAULT_UPDATE := Update(0, map[])

  datatype Entry = Entry(key: bytes, value: bytes)

  const DEFAULT_ENTRY := Entry([], [])

  /** An entry writes its key and its value, empty or not. */
  function SerializeEntry(e: Entry): bytes {
    EncodeFields([BytesField(1, e.key), BytesField(2, e.value)])
  }

  function EntrySize(e: Entry): nat {
    1 + DelimitedSize(|e.key|) + 1 + DelimitedSize(|e.value|)
  }

  function EntryStep(e: Entry, f: Field): Option<Entry> {
    match f
    case BytesField(1, data) => Some(e.(key := data))
    case BytesField(2, data) => Some(e.(value := data))
    case _ => Some(e)
  }

  /** The order in which a serializer walks through the map: each key once. */
  ghost predicate IsOrder(order: seq<bytes>, properties: map<bytes, bytes>) {
    && (forall k :: k in order <==> k in properties)
    && (forall i, j :: 0 <= i < j < |order| ==> order[i] != order[j])
  }

  function EntryFields(properties: map<bytes, bytes>, order: seq<bytes>): (fs: seq<Field>)
    requires forall k :: k in order ==> k in properties
    ensures |fs| == |order|
  {
    if order == [] then []
    else
      var k := order[|order| - 1];
      EntryFields(properties, order[..|order| - 1]) + [BytesField(2, SerializeEntry(Entry(k, properties[k])))]
  }

  function UpdateFields(m: Update, order: seq<bytes>): seq<Field>
    requires forall k :: k in order ==> k in m.properties
  {
    IntField(1, m.mid) + EntryFields(m.properties, order)
  }

  function SerializeUpdate(m: Update, order: seq<bytes>): bytes
    requires forall k :: k in order ==> k in m.properties
  {
    EncodeFields(UpdateFields(m, order))
  }

  function UpdateStep(m: Update, f: Field): Option<Update> {
    match f
    case VarintField(1, v) => Some(m.(mid := Truncate(v)))
    case BytesField(2, data) =>
      (match Parse(EntryStep, DEFAULT_ENTRY, data)
       case None => None
       case Some(e) =>
         if !ValidUtf8(e.key) || !ValidUtf8(e.value) then None
         else Some(m.(properties := m.properties[e.key := e.value])))
    case _ => Some(m)
  }

  function ParseUpdate(m: Update, s: bytes): Option<Update> {
    Parse(UpdateStep, m, s)
  }

  function MergeUpdate(m: Update, from: Update): Update {
    Update(Override(m.mid, from.mid), m.properties + from.properties)
  }

  /** What an entry contributes to the size of the message. */
  function EntryCost(properties: map<bytes, bytes>): bytes -> nat {
    k => if k in properties then 1 + DelimitedSize(EntrySize(Entry(k, properties[k]))) else 0
  }

  function Total(cost: bytes -> nat, order: seq<bytes>): nat {
    if order == [] then 0 else Total(cost, order[..|order| - 1]) + cost(order[|order| - 1])
  }

  function EntriesSize(properties: map<bytes, bytes>, order: seq<bytes>): nat {
    Total(EntryCost(properties), order)
  }

  function UpdateSize(m: Update, order: seq<bytes>): nat {
    EntriesSize(m.properties, order) + IntFieldSize(m.mid)
  }

  ghost predicate PropertiesUtf8(properties: map<bytes, bytes>) {
    forall k :: k in properties ==> ValidUtf8(k) && ValidUtf8(properties[k])
  }

  lemma EntryLength(e: Entry)
    ensures |SerializeEntry(e)| == EntrySize(e)
  {
    assert [BytesField(1, e.key)] + [BytesField(2, e.value)] == [BytesField(1, e.key), BytesField(2, e.value)];
    EncodeFieldsAppend([BytesField(1, e.key)], [BytesField(2, e.value)]);
    EncodeOne(BytesField(1, e.key));
    EncodeOne(BytesField(2, e.value));
    BytesFieldLength(1, e.key);
    BytesFieldLength(2, e.value);
  }

  lemma EntryRoundTrip(e: Entry)
    requires EntrySize(e) <= INT_MAX
    ensures Parse(EntryStep, DEFAULT_ENTRY, SerializeEntry(e)) == Some(e)
  {
    var one, two := BytesField(1, e.key), BytesField(2, e.value);
    assert [one] + [two] == [one, two];
    FoldAppend(EntryStep, DEFAULT_ENTRY, [one], [two]);
    FoldOne(EntryStep, DEFAULT_ENTRY, one);
    FoldOne(EntryStep, Entry(e.key, []), two);
    ParseOfWhole(EntryStep, DEFAULT_ENTRY, [one, two]);
  }

  lemma {:induction false} EntriesLength(properties: map<bytes, bytes>, order: seq<bytes>)
    requires forall k :: k in order ==> k in properties
    ensures |EncodeFields(EntryFields(properties, order))| == EntriesSize(properties, order)
    ensures AllShaped(EntryFields(properties, order))
    decreases |order|
  {
    if order != [] {
      var front, k := order[..|order| - 1], order[|order| - 1];
      var e := Entry(k, properties[k]);
      EntriesLength(properties, front);
      EncodeSnoc(EntryFields(properties, front), BytesField(2, SerializeEntry(e)), EntryFields(properties, order));
      BytesFieldLength(2, SerializeEntry(e));
      EntryLength(e);
    }
  }

  lemma UpdateShaped(m: Update, order: seq<bytes>)
    requires forall k :: k in order ==> k in m.properties
    ensures AllShaped(UpdateFields(m, order))
  {
    EntriesLength(m.properties, order);
  }

  lemma UpdateSizeAgrees(m: Update, order: seq<bytes>)
    requires forall k :: k in order ==> k in m.properties
    ensures |SerializeUpdate(m, order)| == UpdateSize(m, order)
  {
    EncodeFieldsAppend(IntField(1, m.mid), EntryFields(m.properties, order));
    IntFieldLength(1, m.mid);
    EntriesLength(m.properties, order);
  }

  /** The part of a map that a prefix of the order has written. */
  function Written(properties: map<bytes, bytes>, order: seq<bytes>): map<bytes, bytes>
    requires forall k :: k in order ==> k in properties
  {
    map k | k in order :: properties[k]
  }

  predicate OrderUtf8(properties: map<bytes, bytes>, order: seq<bytes>)
    requires forall k :: k in order ==> k in properties
  {
    forall i :: 0 <= i < |order| ==> ValidUtf8(order[i]) && ValidUtf8(properties[order[i]])
  }

  lemma StepEntry(m: Update, e: Entry)
    requires EntrySize(e) <= INT_MAX
    ensures UpdateStep(m, BytesField(2, SerializeEntry(e))) ==
            if ValidUtf8(e.key) && ValidUtf8(e.value)
            then Some(m.(properties := m.properties[e.key := e.value])) else None
  {
    EntryRoundTrip(e);
  }

  lemma WrittenSnoc(properties: map<bytes, bytes>, order: seq<bytes>, m: map<bytes, bytes>)
    requires order != [] && forall k :: k in order ==> k in properties
    ensures
      var front, k := order[..|order| - 1], order[|order| - 1];
      && (m + Written(properties, front))[k := properties[k]] == m + Written(properties, order)
      && (OrderUtf8(properties, order) <==> OrderUtf8(properties, front) && ValidUtf8(k) && ValidUtf8(properties[k]))
  {
    var front, k := order[..|order| - 1], order[|order| - 1];
    assert order == front + [k];
    if OrderUtf8(properties, order) {
      forall i | 0 <= i < |front| ensures ValidUtf8(front[i]) && ValidUtf8(properties[front[i]]) {
        assert front[i] == order[i];
      }
    }
  }

  lemma {:induction false} FoldEntries(m: Update, properties: map<bytes, bytes>, order: seq<bytes>)
    requires forall k :: k in order ==> k in properties
    requires EntriesSize(properties, order) <= INT_MAX
    ensures Fold(UpdateStep, m, EntryFields(properties, order)) ==
            if OrderUtf8(properties, order)
            then Some(m.(properties := m.properties + Written(properties, order))) else None
    decreases |order|
  {
    if order == [] {
      assert m.properties + Written(properties, order) == m.properties;
    } else {
      var front, k := order[..|order| - 1], order[|order| - 1];
      FoldEntries(m, properties, front);
      WrittenSnoc(properties, order, m.properties);
      FoldSnoc(UpdateStep, m, EntryFields(properties, front), BytesField(2, SerializeEntry(Entry(k, properties[k]))));
      if OrderUtf8(properties, front) {
        StepEntry(m.(properties := m.properties + Written(properties, front)), Entry(k, properties[k]));
      }
    }
  }

  /** Parsing a serialization in any iteration order is `MergeFrom`, and fails exactly when a key or
      a value is not UTF-8. */
  lemma ParseUpdateMerges(m: Update, b: Update, order: seq<bytes>)
    requires IsOrder(order, b.properties) && UpdateSize(b, order) <= INT_MAX
    ensures ParseUpdate(m, SerializeUpdate(b, order)) ==
            if PropertiesUtf8(b.properties) then Some(MergeUpdate(m, b)) else None
  {
    UpdateSizeAgrees(b, order);
    UpdateShaped(b, order);
    SmallMessageIsWritable(UpdateFields(b, order));
    ParseOfWhole(UpdateStep, m, UpdateFields(b, order));
    FoldUpdate(m, b, order);
  }

  lemma FoldUpdate(m: Update, b: Update, order: seq<bytes>)
    requires IsOrder(order, b.properties) && UpdateSize(b, order) <= INT_MAX
    ensures Fold(UpdateStep, m, UpdateFields(b, order)) ==
            if PropertiesUtf8(b.properties) then Some(MergeUpdate(m, b)) else None
  {
    hide Fold, UpdateStep, ValidUtf8, IntField, Override, Written, OrderUtf8, PropertiesUtf8, EntryFields, EntriesSize;
    FoldAppend(UpdateStep, m, IntField(1, b.mid), EntryFields(b.properties, order));
    FoldMid(m, b.mid);
    FoldEntries(m.(mid := Override(m.mid, b.mid)), b.properties, order);
    WrittenAll(b.properties, order);
  }

  lemma FoldMid(m: Update, mid: int32)
    ensures Fold(UpdateStep, m, IntField(1, mid)) == Some(m.(mid := Override(m.mid, mid)))
  {
    TruncateSignExtend(mid);
    FoldOne(UpdateStep, m, VarintField(1, SignExtend(mid)));
  }

  /** A whole walk writes the whole map. */
  lemma WrittenAll(properties: map<bytes, bytes>, order: seq<bytes>)
    requires IsOrder(order, properties)
    ensures forall k :: k in order ==> k in properties
    ensures Written(properties, order) == properties
    ensures OrderUtf8(properties, order) <==> PropertiesUtf8(properties)
  {
    hide ValidUtf8;
  }

  lemma UpdateRoundTrip(m: Update, order: seq<bytes>)
    requires IsOrder(order, m.properties) && UpdateSize(m, order) <= INT_MAX
    ensures ParseUpdate(DEFAULT_UPDATE, SerializeUpdate(m, order)) == Some(m) <==> PropertiesUtf8(m.properties)
  {
    ParseUpdateMerges(DEFAULT_UPDATE, m, order);
    assert MergeUpdate(DEFAULT_UPDATE, m) == m;
  }

  /** Into any message, concatenated serializations parse as one merge after the other, so that a later entry
      for a key replaces an earlier one, and fail exactly when a string of either is not UTF-8. */
  lemma UpdateMergeHomomorphism(m: Update, a: Update, orderA: seq<bytes>, b: Update, orderB: seq<bytes>)
    requires IsOrder(orderA, a.properties) && UpdateSize(a, orderA) <= INT_MAX
    requires IsOrder(orderB, b.properties) && UpdateSize(b, orderB) <= INT_MAX
    ensures ParseUpdate(m, SerializeUpdate(a, orderA) + SerializeUpdate(b, orderB)) ==
            if PropertiesUtf8(a.properties) && PropertiesUtf8(b.properties)
            then Some(MergeUpdate(MergeUpdate(m, a), b)) else None
  {
    hide PropertiesUtf8, MergeUpdate, UpdateFields, Fold, Parse, EncodeFields, UpdateSize;
    UpdateSizeAgrees(a, orderA);
    UpdateShaped(a, orderA);
    SmallMessageIsWritable(UpdateFields(a, orderA));
    ParseOfEncoding(UpdateStep, m, UpdateFields(a, orderA), SerializeUpdate(b, orderB));
    FoldUpdate(m, a, orderA);
    ParseUpdateMerges(MergeUpdate(m, a), b, orderB);
  }

  /// The size does not depend on the order

  lemma {:induction false} TotalWithout(cost: bytes -> nat, order: seq<bytes>, i: nat)
    requires i < |order|
    ensures Total(cost, order) == Total(cost, order[..i] + order[i + 1..]) + cost(order[i])
    decreases |order|
  {
    var front, last := order[..|order| - 1], order[|order| - 1];
    var rest := order[..i] + order[i + 1..];
    if i == |order| - 1 {
      assert rest == front;
    } else {
      TotalWithout(cost, front, i);
      assert rest[..|rest| - 1] == front[..i] + front[i + 1..];
      assert rest[|rest| - 1] == last;
    }
  }

  lemma Removed(s: seq<bytes>, i: nat)
    requires i < |s| && forall j, k :: 0 <= j < k < |s| ==> s[j] != s[k]
    ensures
      var rest := s[..i] + s[i + 1..];
      && (forall x :: x in rest <==> x in s && x != s[i])
      && (forall j, k :: 0 <= j < k < |rest| ==> rest[j] != rest[k])
  {
    var rest := s[..i] + s[i + 1..];
    forall x | x in s && x != s[i] ensures x in rest {
      var j :| 0 <= j < |s| && s[j] == x;
      assert rest[if j < i then j else j - 1] == x;
    }
  }

  lemma HasMember(s: seq<bytes>)
    ensures s != [] ==> exists k :: k in s
  {
    if s != [] { assert s[0] in s; }
  }

  lemma {:induction false} TotalPermutes(cost: bytes -> nat, a: seq<bytes>, b: seq<bytes>)
    requires forall k :: k in a <==> k in b
    requires forall i, j :: 0 <= i < j < |a| ==> a[i] != a[j]
    requires forall i, j :: 0 <= i < j < |b| ==> b[i] != b[j]
    ensures Total(cost, a) == Total(cost, b)
    decreases |a|
  {
    if a == [] {
      HasMember(b);
    } else {
      var front, last := a[..|a| - 1], a[|a| - 1];
      assert last in b;
      var i :| 0 <= i < |b| && b[i] == last;
      var rest := b[..i] + b[i + 1..];
      Removed(a, |a| - 1);
      Removed(b, i);
      assert a[..|a| - 1] + a[|a|..] == front;
      TotalPermutes(cost, front, rest);
      TotalWithout(cost, b, i);
    }
  }

  /** `ByteSizeLong` may walk through the map in another order than the serializer. */
  lemma SizeIsOrderIndependent(m: Update, a: seq<bytes>, b: seq<bytes>)
    requires IsOrder(a, m.properties) && IsOrder(b, m.properties)
    ensures UpdateSize(m, a) == |SerializeUpdate(m, b)|
  {
    UpdateSizeAgrees(m, b);
    TotalPermutes(EntryCost(m.properties), a, b);
  }

  /// The bytes, with their tags written out

  /** An integer field: nothing for 0, otherwise the tag and the integer, sign-extended to 64 bits. */
  function IntBytes(tag: byte, x: int32): bytes {
    if x == 0 then [] else [tag] + Varint(SignExtend(x))
  }

  function DelimitedBytes(tag: byte, data: bytes): bytes {
    [tag] + Varint(|data|) + data
  }

  lemma IntFieldBytes(number: nat, x: int32)
    requires 1 <= number < 16
    ensures EncodeFields(IntField(number, x)) == IntBytes(8 * number, x)
  {
    EncodeNone();
    EncodeOne(VarintField(number, SignExtend(x)));
    assert Varint(8 * number) == [8 * number];
  }

  lemma BytesFieldBytes(number: nat, data: bytes)
    requires 1 <= number < 16
    ensures EncodeFields([BytesField(number, data)]) == DelimitedBytes(8 * number + 2, data)
  {
    EncodeOne(BytesField(number, data));
    assert Varint(8 * number + 2) == [8 * number + 2];
    Associative([8 * number + 2], Varint(|data|), data);
  }

  lemma EncodeFour(a: seq<Field>, b: seq<Field>, c: seq<Field>, d: seq<Field>)
    ensures EncodeFields(a + b + c + d) == EncodeFields(a) + EncodeFields(b) + EncodeFields(c) + EncodeFields(d)
  {
    EncodeFieldsAppend(a + b + c, d);
    EncodeFieldsAppend(a + b, c);
    EncodeFieldsAppend(a, b);
  }

  /** `ServerInfo`: tags 8, 16, 24 and 34. */
  lemma InfoBytes(m: Info)
    ensures SerializeInfo(m) ==
            IntBytes(8, m.kind) + IntBytes(16, m.port) + IntBytes(24, m.sid)
            + if m.ip == [] then [] else DelimitedBytes(34, m.ip)
  {
    hide EncodeFields, IntBytes, DelimitedBytes, IntField;
    EncodeNone();
    EncodeFour(IntField(1, m.kind), IntField(2, m.port), IntField(3, m.sid), StringField(4, m.ip));
    IntFieldBytes(1, m.kind);
    IntFieldBytes(2, m.port);
    IntFieldBytes(3, m.sid);
    BytesFieldBytes(4, m.ip);
  }

  /** Listeners, each behind tag 34. */
  function ListenersBytes(ls: seq<Info>): bytes {
    if ls == [] then [] else ListenersBytes(ls[..|ls| - 1]) + DelimitedBytes(34, SerializeInfo(ls[|ls| - 1]))
  }

  lemma {:induction false} ListenerFieldsBytes(ls: seq<Info>)
    ensures EncodeFields(ListenerFields(ls)) == ListenersBytes(ls)
    decreases |ls|
  {
    hide DelimitedBytes, SerializeInfo, EncodeField, EncodeFields;
    if ls == [] {
      EncodeNone();
      assert ListenerFields(ls) == [];
    } else {
      var front, last := ls[..|ls| - 1], ls[|ls| - 1];
      assert ListenerFields(ls) == ListenerFields(front) + [BytesField(4, SerializeInfo(last))];
      ListenerFieldsBytes(front);
      EncodeFieldsAppend(ListenerFields(front), [BytesField(4, SerializeInfo(last))]);
      BytesFieldBytes(4, SerializeInfo(last));
    }
  }

  /** `ServerRegisterRQ`: tags 8, 16, 26 for the packed integers, and 34 for each listener. */
  lemma RegisterBytes(m: Register)
    ensures SerializeRegister(m) ==
            IntBytes(8, m.sid) + IntBytes(16, m.kind)
            + (if m.connectTypes == [] then [] else DelimitedBytes(26, Packed(m.connectTypes)))
            + ListenersBytes(m.listeners)
  {
    hide EncodeFields, IntBytes, DelimitedBytes, IntField, Packed, ListenersBytes, ListenerFields;
    EncodeNone();
    EncodeFour(IntField(1, m.sid), IntField(2, m.kind), PackedField(3, m.connectTypes), ListenerFields(m.listeners));
    IntFieldBytes(1, m.sid);
    IntFieldBytes(2, m.kind);
    BytesFieldBytes(3, Packed(m.connectTypes));
    ListenerFieldsBytes(m.listeners);
  }

  /** A map entry: the key behind tag 10, the value behind tag 18. */
  lemma EntryBytes(e: Entry)
    ensures SerializeEntry(e) == DelimitedBytes(10, e.key) + DelimitedBytes(18, e.value)
  {
    hide EncodeFields, DelimitedBytes;
    var key, value := BytesField(1, e.key), BytesField(2, e.value);
    assert [key, value] == [key] + [value];
    EncodeFieldsAppend([key], [value]);
    BytesFieldBytes(1, e.key);
    BytesFieldBytes(2, e.value);
  }

  /** Entries in the order of the walk, each behind tag 18. */
  function EntriesBytes(properties: map<bytes, bytes>, order: seq<bytes>): bytes
    requires forall k :: k in order ==> k in properties
  {
    if order == [] then []
    else
      var k := order[|order| - 1];
      EntriesBytes(properties, order[..|order| - 1])
      + DelimitedBytes(18, DelimitedBytes(10, k) + DelimitedBytes(18, properties[k]))
  }

  lemma {:induction false} EntryFieldsBytes(properties: map<bytes, bytes>, order: seq<bytes>)
    requires forall k :: k in order ==> k in properties
    ensures EncodeFields(EntryFields(properties, order)) == EntriesBytes(properties, order)
    decreases |order|
  {
    hide DelimitedBytes, SerializeEntry, EncodeField, EncodeFields;
    if order == [] {
      EncodeNone();
    } else {
      var front, k := order[..|order| - 1], order[|order| - 1];
      var entry := BytesField(2, SerializeEntry(Entry(k, properties[k])));
      EntryFieldsBytes(properties, front);
      EncodeFieldsAppend(EntryFields(properties, front), [entry]);
      BytesFieldBytes(2, SerializeEntry(Entry(k, properties[k])));
      EntryBytes(Entry(k, properties[k]));
    }
  }

  /** `UpdateMatchRQ`: tag 8, and 18 for each entry. */
  lemma UpdateBytes(m: Update, order: seq<bytes>)
    requires forall k :: k in order ==> k in m.properties
    ensures SerializeUpdate(m, order) == IntBytes(8, m.mid) + EntriesBytes(m.properties, order)
  {
    hide EncodeFields, IntBytes, IntField, EntriesBytes, EntryFields;
    EncodeFieldsAppend(IntField(1, m.mid), EntryFields(m.properties, order));
    IntFieldBytes(1, m.mid);
    EntryFieldsBytes(m.properties, order);
  }

  /// Section "Last One Wins", written out

  /** A later integer replaces an earlier one unless it is 0, which is not written; lists are joined. */
  lemma RegisterLastOneWins(m: Register, a: Register, b: Register)
    requires RegisterSize(a) <= INT_MAX && RegisterSize(b) <= INT_MAX
    requires ListenersUtf8(a.listeners) && ListenersUtf8(b.listeners)
    ensures
      var r := ParseRegister(m, SerializeRegister(a) + SerializeRegister(b));
      && r.Some?
      && r.value.sid == (if b.sid != 0 then b.sid else if a.sid != 0 then a.sid else m.sid)
      && r.value.kind == (if b.kind != 0 then b.kind else if a.kind != 0 then a.kind else m.kind)
      && r.value.connectTypes == m.connectTypes + a.connectTypes + b.connectTypes
      && r.value.listeners == m.listeners + a.listeners + b.listeners
  {
    hide ListenersUtf8, SerializeRegister, ParseRegister, RegisterSize;
    RegisterMergeHomomorphism(m, a, b);
  }

  /** A later entry replaces an earlier one with the same key, and all other entries stay. */
  lemma UpdateLastOneWins(m: Update, a: Update, orderA: seq<bytes>, b: Update, orderB: seq<bytes>, key: bytes)
    requires IsOrder(orderA, a.properties) && UpdateSize(a, orderA) <= INT_MAX && PropertiesUtf8(a.properties)
    requires IsOrder(orderB, b.properties) && UpdateSize(b, orderB) <= INT_MAX && PropertiesUtf8(b.properties)
    ensures
      var r := ParseUpdate(m, SerializeUpdate(a, orderA) + SerializeUpdate(b, orderB));
      && r.Some?
      && (key in r.value.properties <==> key in b.properties || key in a.properties || key in m.properties)
      && (key in b.properties ==> r.value.properties[key] == b.properties[key])
      && (key !in b.properties && key in a.properties ==> r.value.properties[key] == a.properties[key])
      && (key !in b.properties && key !in a.properties && key in m.properties ==>
            r.value.properties[key] == m.properties[key])
  {
    hide PropertiesUtf8, SerializeUpdate, ParseUpdate, UpdateSize;
    UpdateMergeHomomorphism(m, a, orderA, b, orderB);
  }

  /// Fields that no serializer writes

  /** A field as it may arrive: any number below 16, any wire type. */
  predicate Readable(f: Field) {
    || Writable(f)
    || (1 <= f.number < 16 && ((f.Fixed64Field? && |f.data| == 8) || (f.Fixed32Field? && |f.data| == 4)))
  }

  lemma ParseOneField<M>(step: (M, Field) -> Option<M>, m: M, f: Field, rest: bytes)
    requires Readable(f)
    ensures Parse(step, m, EncodeField(f) + rest) ==
            match step(m, f) { case None => None case Some(m') => Parse(step, m', rest) }
  {
    if Writable(f) {
      FieldRoundTrip(f, rest);
    } else {
      FixedFieldRoundTrip(f, rest);
    }
  }

  /** Unknown fields, and known ones of a wrong wire type, are skipped. */
  lemma UnknownFieldsAreSkipped(info: Info, register: Register, update: Update, f: Field, rest: bytes)
    requires Readable(f)
    ensures f.number > 4 || f.Fixed64Field? || f.Fixed32Field? || (f.VarintField? <==> f.number == 4) ==>
              ParseInfo(info, EncodeField(f) + rest) == ParseInfo(info, rest)
    ensures f.number > 4 || f.Fixed64Field? || f.Fixed32Field? || (f.VarintField? && f.number == 4)
            || (f.BytesField? && f.number < 3) ==>
              ParseRegister(register, EncodeField(f) + rest) == ParseRegister(register, rest)
    ensures f.number > 2 || f.Fixed64Field? || f.Fixed32Field? || (f.VarintField? <==> f.number == 2) ==>
              ParseUpdate(update, EncodeField(f) + rest) == ParseUpdate(update, rest)
  {
    hide Parse, EncodeField;
    ParseOneField(InfoStep, info, f, rest);
    ParseOneField(RegisterStep, register, f, rest);
    ParseOneField(UpdateStep, update, f, rest);
  }

  /** Elements of `connectTypes` that come one by one, behind tag 24, are appended as well. */
  lemma UnpackedElementIsAppended(m: Register, x: int32, rest: bytes)
    ensures ParseRegister(m, [24] + Varint(SignExtend(x)) + rest) ==
            ParseRegister(m.(connectTypes := m.connectTypes + [x]), rest)
  {
    var f := VarintField(3, SignExtend(x));
    assert Varint(24) == [24];
    TruncateSignExtend(x);
    ParseOneField(RegisterStep, m, f, rest);
  }
}
