/** The generated message classes: parse loops, serializers that trust cached sizes, sizing that fills
    the caches, merge and copy. Each is proved against the values of Messages.dfy.
 */
module MessageObjects {
  import opened Bytes
  import opened Utf8
  import opened Wire
  import opened Messages

  /** A repeated submessage together with its own cached size. */
  datatype InfoCell = InfoCell(info: Info, cachedSize: nat)

  function Infos(cells: seq<InfoCell>): (ls: seq<Info>)
    ensures |ls| == |cells|
  {
    seq(|cells|, i requires 0 <= i < |cells| => cells[i].info)
  }

  /// ServerInfo

  /** The switch of the parse loop of `ServerInfo`. */
  method TakeInfoField(m: Info, tag: nat, f: Field) returns (r: Option<Info>)
    requires tag == Tag(f) && f.number >= 1
    ensures r == InfoStep(m, f)
  {
    if tag == 8 {
      r := Some(m.(kind := Truncate(f.value)));
    } else if tag == 16 {
      r := Some(m.(port := Truncate(f.value)));
    } else if tag == 24 {
      r := Some(m.(sid := Truncate(f.value)));
    } else if tag == 34 {
      r := if ValidUtf8(f.data) then Some(m.(ip := f.data)) else None;
    } else {
      r := Some(m);
    }
  }

  /** The parse loop of `ServerInfo`: one tag a turn, switch on it, skip what is unknown. The result
      is that of `ReadMessage`, which also demands that the input is consumed. */
  method ParseServerInfo(start: Info, input: bytes) returns (r: Option<Info>)
    ensures r == ParseInfo(start, input)
  {
    var m, s := start, input;
    while s != []
      invariant ParseInfo(m, s) == ParseInfo(start, input)
      decreases |s|
    {
      var t := ReadVarint(s, MAX_VARINT_BYTES);
      if t.None? {
        return None;
      }
      var tag, rest := t.value.0 % 0x1_0000_0000, t.value.1;
      var item := ReadPayload(tag, rest);
      if !item.Item? {
        return None;
      }
      var taken := TakeInfoField(m, tag, item.field);
      if taken.None? {
        return None;
      }
      m, s := taken.value, item.rest;
    }
    return Some(m);
  }

  /// ServerRegisterRQ

  /** Listeners as they are written: the length comes from the cache. */
  function CachedListeners(cells: seq<InfoCell>): bytes {
    if cells == [] then []
    else CachedListener(cells[0].info, cells[0].cachedSize) + CachedListeners(cells[1..])
  }

  function CachedListener(info: Info, cachedSize: nat): bytes {
    Varint(34) + Varint(cachedSize) + SerializeInfo(info)
  }

  function CachedPacked(xs: seq<int32>, cachedSize: nat): bytes {
    if xs == [] then [] else Varint(26) + Varint(cachedSize) + Packed(xs)
  }

  function CachedRegister(sid: int32, kind: int32, xs: seq<int32>, xsCachedSize: nat, cells: seq<InfoCell>): bytes {
    EncodeFields(IntField(1, sid) + IntField(2, kind)) + CachedPacked(xs, xsCachedSize) + CachedListeners(cells)
  }

  predicate CellsCurrent(cells: seq<InfoCell>) {
    forall i :: 0 <= i < |cells| ==> cells[i].cachedSize == InfoSize(cells[i].info)
  }

  predicate CellsSmall(cells: seq<InfoCell>) {
    forall i :: 0 <= i < |cells| ==> cells[i].cachedSize <= INT_MAX && InfoSize(cells[i].info) <= INT_MAX
  }

  class ServerRegisterRQ {
    var sid: int32
    var kind: int32
    var connectTypes: seq<int32>
    var listeners: seq<InfoCell>
    var connectTypesCachedSize: nat
    var cachedSize: nat

    function Value(): Register
      reads this
    {
      Register(sid, kind, connectTypes, Infos(listeners))
    }

    /** The caches hold the sizes of the present contents. */
    predicate CachesCurrent()
      reads this
    {
      connectTypesCachedSize == PackedSize(connectTypes) && CellsCurrent(listeners)
    }

    constructor ()
      ensures Value() == DEFAULT_REGISTER
    {
      sid, kind, connectTypes, listeners := 0, 0, [], [];
      connectTypesCachedSize, cachedSize := 0, 0;
      new;
      assert Value() == DEFAULT_REGISTER;
    }

    method Clear()
      modifies this
      ensures Value() == DEFAULT_REGISTER
    {
      connectTypes := [];
      listeners := [];
      sid, kind := 0, 0;
      assert Value() == DEFAULT_REGISTER;
    }

    method AddConnectType(x: int32)
      modifies this`connectTypes
      ensures connectTypes == old(connectTypes) + [x]
    {
      connectTypes := connectTypes + [x];
    }

    method AddListener(info: Info)
      modifies this`listeners
      ensures Value() == old(Value()).(listeners := old(Value()).listeners + [info])
    {
      listeners := listeners + [InfoCell(info, 0)];
      assert Infos(listeners) == old(Value()).listeners + [info];
    }

    method SizeListeners() returns (total: nat)
      modifies this`listeners
      ensures Infos(listeners) == Infos(old(listeners)) && CellsCurrent(listeners)
      ensures total == ListenersSize(Infos(listeners))
    {
      ghost var infos := Infos(listeners);
      ghost var sizes := seq(|infos|, i requires 0 <= i < |infos| => 1 + DelimitedSize(InfoSize(infos[i])));
      total := 0;
      for i := 0 to |listeners|
        invariant |listeners| == |infos| && forall k :: 0 <= k < |infos| ==> listeners[k].info == infos[k]
        invariant total == Sum(sizes[..i])
        invariant forall k :: 0 <= k < i ==> listeners[k].cachedSize == InfoSize(listeners[k].info)
      {
        var size := InfoSize(listeners[i].info);
        listeners := listeners[i := listeners[i].(cachedSize := size)];
        total := total + 1 + DelimitedSize(size);
        assert sizes[..i + 1][..i] == sizes[..i];
      }
      assert sizes[..|listeners|] == sizes;
      assert Infos(listeners) == infos;
    }

    /** Sizing stores the size of the packed field and of every listener. */
    method ByteSizeLong() returns (total: nat)
      modifies this`listeners, this`connectTypesCachedSize, this`cachedSize
      ensures Value() == old(Value())
      ensures total == RegisterSize(Value()) == cachedSize
      ensures CachesCurrent()
    {
      total := 0;
      var dataSize := PackedSize(connectTypes);
      if dataSize > 0 {
        total := total + 1 + VarintSize(dataSize);
      }
      connectTypesCachedSize := dataSize;
      total := total + dataSize;

      var listenersSize := SizeListeners();
      total := total + listenersSize;
      if sid != 0 {
        total := total + 1 + Int32Size(sid);
      }
      if kind != 0 {
        total := total + 1 + Int32Size(kind);
      }
      cachedSize := total;
    }

    method WriteConnectTypes(before: bytes) returns (out: bytes)
      ensures out == before + CachedPacked(connectTypes, connectTypesCachedSize)
    {
      out := before;
      if connectTypes != [] {
        out := out + (Varint(26) + Varint(connectTypesCachedSize));
      }
      ghost var wanted := out + Packed(connectTypes);
      for i := 0 to |connectTypes|
        invariant out + Packed(connectTypes[i..]) == wanted
      {
        var piece := Varint(SignExtend(connectTypes[i]));
        assert connectTypes[i..][1..] == connectTypes[i + 1..];
        Associative(out, piece, Packed(connectTypes[i + 1..]));
        out := out + piece;
      }
      assert out + [] == out;
      Associative(before, Varint(26) + Varint(connectTypesCachedSize), Packed(connectTypes));
    }

    method WriteListeners(before: bytes) returns (out: bytes)
      ensures out == before + CachedListeners(listeners)
    {
      out := before;
      ghost var wanted := out + CachedListeners(listeners);
      for i := 0 to |listeners|
        invariant out + CachedListeners(listeners[i..]) == wanted
      {
        var piece := CachedListener(listeners[i].info, listeners[i].cachedSize);
        assert listeners[i..][1..] == listeners[i + 1..];
        Associative(out, piece, CachedListeners(listeners[i + 1..]));
        out := out + piece;
      }
      assert out + [] == out;
    }

    method SerializeWithCachedSizes() returns (out: bytes)
      ensures out == CachedRegister(sid, kind, connectTypes, connectTypesCachedSize, listeners)
    {
      out := [];
      if sid != 0 {
        out := out + EncodeField(VarintField(1, SignExtend(sid)));
      }
      if kind != 0 {
        out := out + EncodeField(VarintField(2, SignExtend(kind)));
      }
      WrittenScalars(sid, kind);
      out := WriteConnectTypes(out);
      out := WriteListeners(out);
    }

    /** Sizing immediately before writing makes the output canonical, and as long as announced. */
    method SerializeAsString() returns (out: bytes)
      modifies this`listeners, this`connectTypesCachedSize, this`cachedSize
      ensures Value() == old(Value())
      ensures out == SerializeRegister(Value()) && |out| == cachedSize
    {
      var total := ByteSizeLong();
      out := SerializeWithCachedSizes();
      CurrentCachesWrite(sid, kind, connectTypes, connectTypesCachedSize, listeners);
      RegisterSizeAgrees(Value());
    }

    /** The parse loop. Tag 0 and a broken tag end it without failure, but then the input is not
        consumed, which `ParseFromArray` and `ReadMessage` demand. A message that fails to parse is left
        in an unspecified state. */
    method MergePartialFromCodedStream(input: bytes) returns (ok: bool, consumed: bool)
      modifies this
      ensures ok && consumed <==> ParseRegister(old(Value()), input).Some?
      ensures ok && consumed ==> Value() == ParseRegister(old(Value()), input).value
    {
      var s := input;
      while s != []
        invariant ParseRegister(Value(), s) == ParseRegister(old(Value()), input)
        decreases |s|
      {
        var t := ReadVarint(s, MAX_VARINT_BYTES);
        if t.None? || t.value.0 % 0x1_0000_0000 == 0 {
          return true, false;
        }
        var tag, rest := t.value.0 % 0x1_0000_0000, t.value.1;
        var item := ReadPayload(tag, rest);
        if !item.Item? {
          return false, false;
        }
        var taken := TakeField(tag, item.field);
        if !taken {
          return false, false;
        }
        s := item.rest;
      }
      return true, true;
    }

    /** The switch inside the parse loop. */
    method TakeField(tag: nat, f: Field) returns (ok: bool)
      requires tag == Tag(f) && f.number >= 1
      modifies this
      ensures ok <==> RegisterStep(old(Value()), f).Some?
      ensures ok ==> Value() == RegisterStep(old(Value()), f).value
    {
      hide Parse, ReadPacked, Truncate;
      ok := true;
      if tag == 8 {
        sid := Truncate(f.value);
      } else if tag == 16 {
        kind := Truncate(f.value);
      } else if tag == 26 {
        var xs := ReadPacked(f.data);
        if xs.None? {
          return false;
        }
        connectTypes := connectTypes + xs.value;
      } else if tag == 24 {
        AddConnectType(Truncate(f.value));
      } else if tag == 34 {
        var info := ParseServerInfo(DEFAULT_INFO, f.data);
        if info.None? {
          return false;
        }
        AddListener(info.value);
      }
    }

    method MergeFrom(from: ServerRegisterRQ)
      requires from != this
      modifies this
      ensures Value() == MergeRegister(old(Value()), from.Value())
    {
      connectTypes := connectTypes + from.connectTypes;
      listeners := listeners + from.listeners;
      if from.sid != 0 {
        sid := from.sid;
      }
      if from.kind != 0 {
        kind := from.kind;
      }
      assert Infos(listeners) == Infos(old(listeners)) + Infos(from.listeners);
    }

    method CopyFrom(from: ServerRegisterRQ)
      modifies this
      ensures Value() == old(from.Value())
    {
      if from == this {
        return;
      }
      Clear();
      MergeFrom(from);
      RegisterMergeMonoid(from.Value(), from.Value(), from.Value());
    }
  }

  lemma WrittenScalars(sid: int32, kind: int32)
    ensures EncodeFields(IntField(1, sid) + IntField(2, kind))
         == (if sid != 0 then EncodeField(VarintField(1, SignExtend(sid))) else [])
          + (if kind != 0 then EncodeField(VarintField(2, SignExtend(kind))) else [])
  {
    EncodeFieldsAppend(IntField(1, sid), IntField(2, kind));
    EncodeOne(VarintField(1, SignExtend(sid)));
    EncodeOne(VarintField(2, SignExtend(kind)));
  }

  /// Stale caches

  /** Prefix codes cancel: equal bytes carry equal numbers and equal rests. */
  lemma VarintCancels(a: nat, b: nat, s: bytes, t: bytes)
    requires a <= INT_MAX && b <= INT_MAX && Varint(a) + s == Varint(b) + t
    ensures a == b && s == t
  {
    Pow128Of10();
    VarintRoundTrip(a, MAX_VARINT_BYTES, s);
    VarintRoundTrip(b, MAX_VARINT_BYTES, t);
  }

  lemma PrefixCancels(a: bytes, s: bytes, t: bytes)
    requires a + s == a + t
    ensures s == t
  {
    assert s == (a + s)[|a|..];
    assert t == (a + t)[|a|..];
  }

  /** The same listeners with caches brought up to date. */
  function Refreshed(cells: seq<InfoCell>): seq<InfoCell> {
    if cells == [] then [] else [InfoCell(cells[0].info, InfoSize(cells[0].info))] + Refreshed(cells[1..])
  }

  lemma {:induction false} RefreshedIfCurrent(cells: seq<InfoCell>)
    requires CellsCurrent(cells)
    ensures Refreshed(cells) == cells
    decreases |cells|
  {
    if cells != [] {
      RefreshedIfCurrent(cells[1..]);
      assert cells == [cells[0]] + cells[1..];
    }
  }

  lemma RefreshedListenersCons(info: Info, cells: seq<InfoCell>)
    requires cells != [] && cells[0].info == info
    ensures CachedListeners(Refreshed(cells))
         == CachedListener(info, InfoSize(info)) + CachedListeners(Refreshed(cells[1..]))
  {
    assert Refreshed(cells)[1..] == Refreshed(cells[1..]);
  }

  lemma CurrentListener(info: Info)
    ensures CachedListener(info, InfoSize(info)) == EncodeField(BytesField(4, SerializeInfo(info)))
  {
    InfoSizeAgrees(info);
    Associative(Varint(34), Varint(InfoSize(info)), SerializeInfo(info));
  }

  lemma EncodeCons(f: Field, fs: seq<Field>)
    ensures EncodeFields([f] + fs) == EncodeField(f) + EncodeFields(fs)
  {
    EncodeFieldsAppend([f], fs);
    EncodeOne(f);
  }

  lemma ListenerFieldsCons(info: Info, ls: seq<Info>)
    ensures ListenerFields([info] + ls) == [BytesField(4, SerializeInfo(info))] + ListenerFields(ls)
  {
  }

  lemma {:induction false} RefreshedListeners(cells: seq<InfoCell>)
    ensures CachedListeners(Refreshed(cells)) == EncodeFields(ListenerFields(Infos(cells)))
    decreases |cells|
  {
    if cells != [] {
      var info, ls := cells[0].info, Infos(cells[1..]);
      assert Infos(cells) == [info] + ls;
      ListenerFieldsCons(info, ls);
      EncodeCons(BytesField(4, SerializeInfo(info)), ListenerFields(ls));
      CurrentListener(info);
      RefreshedListenersCons(info, cells);
      RefreshedListeners(cells[1..]);
    }
  }

  /** A tag, a length and a body: equal bytes carry equal lengths and equal rests. */
  lemma RecordCancels(tag: bytes, a: nat, b: nat, body: bytes, s: bytes, t: bytes)
    requires a <= INT_MAX && b <= INT_MAX
    requires tag + Varint(a) + body + s == tag + Varint(b) + body + t
    ensures a == b && s == t
  {
    Associative(tag + Varint(a), body, s);
    Associative(tag + Varint(b), body, t);
    Associative(tag, Varint(a), body + s);
    Associative(tag, Varint(b), body + t);
    PrefixCancels(tag, Varint(a) + (body + s), Varint(b) + (body + t));
    VarintCancels(a, b, body + s, body + t);
    PrefixCancels(body, s, t);
  }

  lemma {:induction false} ListenersCancel(cells: seq<InfoCell>)
    requires CellsSmall(cells) && CachedListeners(cells) == CachedListeners(Refreshed(cells))
    ensures CellsCurrent(cells)
    decreases |cells|
  {
    if cells != [] {
      var c, more := cells[0], cells[1..];
      RefreshedListenersCons(c.info, cells);
      RecordCancels(Varint(34), c.cachedSize, InfoSize(c.info), SerializeInfo(c.info),
                    CachedListeners(more), CachedListeners(Refreshed(more)));
      ListenersCancel(more);
      forall i | 0 <= i < |cells| ensures cells[i].cachedSize == InfoSize(cells[i].info) {
        if i > 0 { assert cells[i] == more[i - 1]; }
      }
    }
  }

  /** What is written when all caches are current. */
  lemma RefreshedRegister(sid: int32, kind: int32, xs: seq<int32>, cells: seq<InfoCell>)
    ensures CachedRegister(sid, kind, xs, PackedSize(xs), Refreshed(cells))
         == SerializeRegister(Register(sid, kind, xs, Infos(cells)))
  {
    var scalars := IntField(1, sid) + IntField(2, kind);
    EncodeFieldsAppend(scalars + PackedField(3, xs), ListenerFields(Infos(cells)));
    EncodeFieldsAppend(scalars, PackedField(3, xs));
    RefreshedListeners(cells);
    assert EncodeFields(PackedField(3, xs)) == CachedPacked(xs, PackedSize(xs)) by {
      PackedRoundTrip(xs);
      if xs != [] {
        EncodeOne(BytesField(3, Packed(xs)));
        Associative(Varint(26), Varint(PackedSize(xs)), Packed(xs));
      }
    }
  }

  lemma CurrentCachesWrite(sid: int32, kind: int32, xs: seq<int32>, cached: nat, cells: seq<InfoCell>)
    requires (xs == [] || cached == PackedSize(xs)) && CellsCurrent(cells)
    ensures CachedRegister(sid, kind, xs, cached, cells) == SerializeRegister(Register(sid, kind, xs, Infos(cells)))
  {
    RefreshedRegister(sid, kind, xs, cells);
    RefreshedIfCurrent(cells);
  }

  /** Writing with cached sizes gives the canonical bytes if and only if the caches that are used
      are current: any mutation in between that changes a size shows on the wire. */
  lemma CanonicalIffCachesCurrent(sid: int32, kind: int32, xs: seq<int32>, cached: nat, cells: seq<InfoCell>)
    requires cached <= INT_MAX && PackedSize(xs) <= INT_MAX && CellsSmall(cells)
    ensures CachedRegister(sid, kind, xs, cached, cells) == SerializeRegister(Register(sid, kind, xs, Infos(cells)))
       <==> (xs == [] || cached == PackedSize(xs)) && CellsCurrent(cells)
  {
    var scalars := EncodeFields(IntField(1, sid) + IntField(2, kind));
    var tail, tail' := CachedListeners(cells), CachedListeners(Refreshed(cells));
    RefreshedRegister(sid, kind, xs, cells);
    if CachedRegister(sid, kind, xs, cached, cells) == CachedRegister(sid, kind, xs, PackedSize(xs), Refreshed(cells)) {
      Associative(scalars, CachedPacked(xs, cached), tail);
      Associative(scalars, CachedPacked(xs, PackedSize(xs)), tail');
      PrefixCancels(scalars, CachedPacked(xs, cached) + tail, CachedPacked(xs, PackedSize(xs)) + tail');
      if xs == [] {
        assert [] + tail == tail && [] + tail' == tail';
      } else {
        RecordCancels(Varint(26), cached, PackedSize(xs), Packed(xs), tail, tail');
      }
      ListenersCancel(cells);
    }
    if (xs == [] || cached == PackedSize(xs)) && CellsCurrent(cells) {
      CurrentCachesWrite(sid, kind, xs, cached, cells);
    }
  }

  /// UpdateMatchRQ

  class UpdateMatchRQ {
    var mid: int32
    var properties: map<bytes, bytes>

    function Value(): Update
      reads this
    {
      Update(mid, properties)
    }

    /** Sizing walks through the map in an order of its own. */
    method ByteSizeLong(order: seq<bytes>) returns (total: nat)
      requires IsOrder(order, properties)
      ensures total == UpdateSize(Value(), order)
    {
      total := 0;
      for i := 0 to |order|
        invariant total == Total(EntryCost(properties), order[..i])
      {
        var k := order[i];
        total := total + 1 + DelimitedSize(EntrySize(Entry(k, properties[k])));
        assert order[..i + 1][..i] == order[..i];
      }
      assert order[..|order|] == order;
      if mid != 0 {
        total := total + 1 + Int32Size(mid);
      }
    }

    /** The serializer walks through the map in the given order. */
    method SerializeWithCachedSizes(order: seq<bytes>) returns (out: bytes)
      requires IsOrder(order, properties)
      ensures out == SerializeUpdate(Value(), order)
    {
      hide EncodeField, SerializeEntry, EncodeFields;
      out := [];
      if mid != 0 {
        out := out + EncodeField(VarintField(1, SignExtend(mid)));
      }
      assert out == EncodeFields(IntField(1, mid)) by {
        EncodeOne(VarintField(1, SignExtend(mid)));
        EncodeNone();
      }
      ghost var scalars := out;
      EncodeNone();
      for i := 0 to |order|
        invariant forall k :: k in order[..i] ==> k in properties
        invariant out == scalars + EncodeFields(EntryFields(properties, order[..i]))
      {
        var k := order[i];
        var entry := BytesField(2, SerializeEntry(Entry(k, properties[k])));
        ghost var before := EntryFields(properties, order[..i]);
        out := out + EncodeField(entry);
        assert order[..i + 1][..i] == order[..i];
        assert EntryFields(properties, order[..i + 1]) == before + [entry];
        EncodeFieldsAppend(before, [entry]);
        EncodeOne(entry);
        Associative(scalars, EncodeFields(before), EncodeField(entry));
      }
      assert order[..|order|] == order;
      EncodeFieldsAppend(IntField(1, mid), EntryFields(properties, order));
    }

    method MergePartialFromCodedStream(input: bytes) returns (ok: bool, consumed: bool)
      modifies this
      ensures ok && consumed <==> ParseUpdate(old(Value()), input).Some?
      ensures ok && consumed ==> Value() == ParseUpdate(old(Value()), input).value
    {
      var s := input;
      while s != []
        invariant ParseUpdate(Value(), s) == ParseUpdate(old(Value()), input)
        decreases |s|
      {
        var t := ReadVarint(s, MAX_VARINT_BYTES);
        if t.None? || t.value.0 % 0x1_0000_0000 == 0 {
          return true, false;
        }
        var tag, rest := t.value.0 % 0x1_0000_0000, t.value.1;
        var item := ReadPayload(tag, rest);
        if !item.Item? {
          return false, false;
        }
        var taken := TakeField(tag, item.field);
        if !taken {
          return false, false;
        }
        s := item.rest;
      }
      return true, true;
    }

    /** The switch inside the parse loop. */
    method TakeField(tag: nat, f: Field) returns (ok: bool)
      requires tag == Tag(f) && f.number >= 1
      modifies this
      ensures ok <==> UpdateStep(old(Value()), f).Some?
      ensures ok ==> Value() == UpdateStep(old(Value()), f).value
    {
      hide Parse, ValidUtf8, Truncate;
      ok := true;
      if tag == 8 {
        mid := Truncate(f.value);
      } else if tag == 18 {
        var entry := Parse(EntryStep, DEFAULT_ENTRY, f.data);
        if entry.None? || !ValidUtf8(entry.value.key) || !ValidUtf8(entry.value.value) {
          return false;
        }
        properties := properties[entry.value.key := entry.value.value];
      }
    }

    method MergeFrom(from: UpdateMatchRQ)
      requires from != this
      modifies this
      ensures Value() == MergeUpdate(old(Value()), from.Value())
    {
      properties := properties + from.properties;
      if from.mid != 0 {
        mid := from.mid;
      }
    }
  }
}
