/** The wire format under the generated messages, after the Protocol Buffers Encoding guide:
    base 128 varints, tags, length-delimited records, packed integers.
 */
module Wire {
  import opened Bytes

  const INT_MAX := 0x7fff_ffff

  const MAX_VARINT_BYTES := 10

  /// Varints

  function Varint(n: nat): (r: bytes)
    ensures r != []
  {
    if n < 0x80 then [n] else [n % 0x80 + 0x80] + Varint(n / 0x80)
  }

  function VarintSize(n: nat): nat {
    if n < 0x80 then 1 else 1 + VarintSize(n / 0x80)
  }

  /** Reads at most `budget` bytes. */
  function ReadVarint(s: bytes, budget: nat): (r: Option<(nat, bytes)>)
    ensures r.Some? ==> |r.value.1| < |s|
    decreases budget
  {
    if s == [] || budget == 0 then None
    else if s[0] < 0x80 then Some((s[0], s[1..]))
    else
      match ReadVarint(s[1..], budget - 1)
      case None => None
      case Some((high, rest)) => Some((s[0] - 0x80 + 0x80 * high, rest))
  }

  function Pow128(k: nat): nat {
    if k == 0 then 1 else 0x80 * Pow128(k - 1)
  }

  lemma {:induction false} VarintLength(n: nat)
    ensures |Varint(n)| == VarintSize(n)
  {
    if n >= 0x80 {
      VarintLength(n / 0x80);
    }
  }

  /** The number that groups of seven bits mean, the least significant group first. */
  function Base128(s: bytes): nat {
    if s == [] then 0 else s[0] % 0x80 + 0x80 * Base128(s[1..])
  }

  /** A varint is the number in groups of seven bits, the least significant first; the high bit says that
      another group follows, and there is no group too many. */
  lemma {:induction false} VarintIsBase128(n: nat)
    ensures
      var v := Varint(n);
      && Base128(v) == n
      && (forall i :: 0 <= i < |v| - 1 ==> v[i] >= 0x80) && v[|v| - 1] < 0x80
      && (|v| > 1 ==> v[|v| - 1] > 0)
  {
    if n >= 0x80 {
      var v, w := Varint(n), Varint(n / 0x80);
      VarintIsBase128(n / 0x80);
      assert v[1..] == w;
      forall i | 0 <= i < |v| - 1 ensures v[i] >= 0x80 {
        if i > 0 { assert v[i] == w[i - 1]; }
      }
      assert v[|v| - 1] == w[|w| - 1];
    }
  }

  lemma {:induction false} VarintRoundTrip(n: nat, budget: nat, rest: bytes)
    requires 1 <= budget && n < Pow128(budget)
    ensures ReadVarint(Varint(n) + rest, budget) == Some((n, rest))
  {
    var s := Varint(n) + rest;
    if n < 0x80 {
      assert s[1..] == rest;
    } else {
      assert s[1..] == Varint(n / 0x80) + rest;
      assert Pow128(0) == 1;
      VarintRoundTrip(n / 0x80, budget - 1, rest);
    }
  }

  lemma Pow128Of10()
    ensures Pow128(MAX_VARINT_BYTES) > 0x1_0000_0000_0000_0000
  {
    assert Pow128(2) == 0x4000;
    assert Pow128(4) == 0x1000_0000;
    assert Pow128(6) == 0x400_0000_0000;
    assert Pow128(8) == 0x100_0000_0000_0000;
  }

  lemma {:induction false} ReadVarintExtends(s: bytes, budget: nat, more: bytes)
    requires ReadVarint(s, budget).Some?
    ensures
      var (n, rest) := ReadVarint(s, budget).value;
      ReadVarint(s + more, budget) == Some((n, rest + more))
    decreases budget
  {
    if s[0] < 0x80 {
      assert (s + more)[1..] == s[1..] + more;
    } else {
      assert (s + more)[1..] == s[1..] + more;
      ReadVarintExtends(s[1..], budget - 1, more);
    }
  }

  /// 32-bit integers: negative ones are sign-extended to 64 bits, so they take ten bytes

  function SignExtend(x: int32): nat {
    if x < 0 then x + 0x1_0000_0000_0000_0000 else x
  }

  function Truncate(n: nat): int32 {
    Signed(n % 0x1_0000_0000)
  }

  function Int32Size(x: int32): nat {
    if x < 0 then MAX_VARINT_BYTES else VarintSize(x)
  }

  lemma TruncateSignExtend(x: int32)
    ensures Truncate(SignExtend(x)) == x
    ensures SignExtend(x) < 0x1_0000_0000_0000_0000 && (SignExtend(x) - x) % 0x1_0000_0000_0000_0000 == 0
  {
    if x < 0 {
      assert SignExtend(x) == (x + 0x1_0000_0000) + 0xffff_ffff * 0x1_0000_0000;
    }
  }

  lemma {:induction false} VarintSizeAtLeast(n: nat, k: nat)
    requires n >= Pow128(k)
    ensures VarintSize(n) > k
  {
    if k > 0 {
      assert Pow128(k - 1) >= 1 by { Pow128Positive(k - 1); }
      VarintSizeAtLeast(n / 0x80, k - 1);
    }
  }

  lemma {:induction false} Pow128Positive(k: nat)
    ensures Pow128(k) >= 1
  {
    if k > 0 { Pow128Positive(k - 1); }
  }

  lemma {:induction false} VarintSizeAtMost(n: nat, k: nat)
    requires 1 <= k && n < Pow128(k)
    ensures VarintSize(n) <= k
  {
    assert Pow128(0) == 1;
    if n >= 0x80 { VarintSizeAtMost(n / 0x80, k - 1); }
  }

  /** The size formula of the library is the length of the encoding. */
  lemma Int32Length(x: int32)
    ensures |Varint(SignExtend(x))| == Int32Size(x)
  {
    VarintLength(SignExtend(x));
    if x < 0 {
      Pow128Of10();
      assert Pow128(2) == 0x4000;
      assert Pow128(4) == 0x1000_0000;
      assert Pow128(6) == 0x400_0000_0000;
      assert Pow128(8) == 0x100_0000_0000_0000;
      assert Pow128(9) == 0x8000_0000_0000_0000;
      VarintSizeAtLeast(SignExtend(x), 9);
      VarintSizeAtMost(SignExtend(x), 10);
    }
  }

  /// Packed integers

  function Packed(xs: seq<int32>): bytes {
    if xs == [] then [] else Varint(SignExtend(xs[0])) + Packed(xs[1..])
  }

  function PackedSize(xs: seq<int32>): nat {
    if xs == [] then 0 else Int32Size(xs[0]) + PackedSize(xs[1..])
  }

  function ReadPacked(s: bytes): Option<seq<int32>>
    decreases |s|
  {
    if s == [] then Some([])
    else
      match ReadVarint(s, MAX_VARINT_BYTES)
      case None => None
      case Some((n, rest)) =>
        match ReadPacked(rest)
        case None => None
        case Some(xs) => Some([Truncate(n)] + xs)
  }

  lemma {:induction false} PackedRoundTrip(xs: seq<int32>)
    ensures ReadPacked(Packed(xs)) == Some(xs)
    ensures |Packed(xs)| == PackedSize(xs)
    ensures xs != [] ==> Packed(xs) != []
  {
    if xs != [] {
      Pow128Of10();
      VarintRoundTrip(SignExtend(xs[0]), MAX_VARINT_BYTES, Packed(xs[1..]));
      TruncateSignExtend(xs[0]);
      Int32Length(xs[0]);
      PackedRoundTrip(xs[1..]);
      assert [xs[0]] + xs[1..] == xs;
    }
  }

  /// Fields

  datatype Field =
    | VarintField(number: nat, value: nat)
    | Fixed64Field(number: nat, data: bytes)
    | BytesField(number: nat, data: bytes)
    | Fixed32Field(number: nat, data: bytes)

  datatype Lexed = EndOfInput | Malformed | Item(field: Field, rest: bytes)

  /** The bytes behind a tag, as many as its wire type says. Tag 0 and groups are not fields. */
  function ReadPayload(tag: nat, s: bytes): (r: Lexed)
    ensures r.Item? ==> |r.rest| <= |s|
  {
    if tag < 8 then Malformed
    else match tag % 8
      case 0 =>
        (match ReadVarint(s, MAX_VARINT_BYTES)
         case None => Malformed
         case Some((v, rest)) => Item(VarintField(tag / 8, v), rest))
      case 1 => if |s| < 8 then Malformed else Item(Fixed64Field(tag / 8, s[..8]), s[8..])
      case 2 =>
        (match ReadVarint(s, MAX_VARINT_BYTES)
         case None => Malformed
         case Some((len, rest)) =>
           if len > INT_MAX || len > |rest| then Malformed
           else Item(BytesField(tag / 8, rest[..len]), rest[len..]))
      case 5 => if |s| < 4 then Malformed else Item(Fixed32Field(tag / 8, s[..4]), s[4..])
      case _ => Malformed
  }

  function ReadField(s: bytes): (r: Lexed)
    ensures r.Item? ==> |r.rest| < |s|
  {
    if s == [] then EndOfInput
    else
      match ReadVarint(s, MAX_VARINT_BYTES)
      case None => Malformed
      case Some((n, rest)) => ReadPayload(n % 0x1_0000_0000, rest)
  }

  function Tag(f: Field): nat {
    8 * f.number + match f
      case VarintField(_, _) => 0
      case Fixed64Field(_, _) => 1
      case BytesField(_, _) => 2
      case Fixed32Field(_, _) => 5
  }

  function Payload(f: Field): bytes {
    match f
    case VarintField(_, value) => Varint(value)
    case Fixed64Field(_, data) => data
    case BytesField(_, data) => Varint(|data|) + data
    case Fixed32Field(_, data) => data
  }

  function EncodeField(f: Field): bytes {
    Varint(Tag(f)) + Payload(f)
  }

  /** The fields that the serializers write: integers, strings and submessages. */
  predicate Writable(f: Field) {
    && 1 <= f.number < 16
    && match f
       case VarintField(_, value) => value < 0x1_0000_0000_0000_0000
       case BytesField(_, data) => |data| <= INT_MAX
       case _ => false
  }

  lemma VarintPayload(number: nat, value: nat, rest: bytes)
    requires 1 <= number && value < 0x1_0000_0000_0000_0000
    ensures ReadPayload(8 * number, Varint(value) + rest) == Item(VarintField(number, value), rest)
  {
    Pow128Of10();
    VarintRoundTrip(value, MAX_VARINT_BYTES, rest);
  }

  lemma BytesPayload(number: nat, data: bytes, rest: bytes)
    requires 1 <= number && |data| <= INT_MAX
    ensures ReadPayload(8 * number + 2, Varint(|data|) + data + rest) == Item(BytesField(number, data), rest)
  {
    Pow128Of10();
    var s := Varint(|data|) + data + rest;
    assert ReadVarint(s, MAX_VARINT_BYTES) == Some((|data|, data + rest)) by {
      Associative(Varint(|data|), data, rest);
      VarintRoundTrip(|data|, MAX_VARINT_BYTES, data + rest);
    }
    DelimitedPayload(number, s, data, rest);
  }

  lemma DelimitedPayload(number: nat, s: bytes, data: bytes, rest: bytes)
    requires 1 <= number && |data| <= INT_MAX
    requires ReadVarint(s, MAX_VARINT_BYTES) == Some((|data|, data + rest))
    ensures ReadPayload(8 * number + 2, s) == Item(BytesField(number, data), rest)
  {
    assert (data + rest)[..|data|] == data && (data + rest)[|data|..] == rest;
    assert (8 * number + 2) % 8 == 2 && (8 * number + 2) / 8 == number;
  }

  lemma Associative(a: bytes, b: bytes, c: bytes)
    ensures a + b + c == a + (b + c)
  {
  }

  lemma ReadFieldBehindTag(tag: nat, payload: bytes, rest: bytes)
    requires tag < 0x80
    ensures ReadField(Varint(tag) + payload + rest) == ReadPayload(tag, payload + rest)
  {
    var s := Varint(tag) + payload + rest;
    assert s[0] == tag && s[1..] == payload + rest;
    assert ReadVarint(s, MAX_VARINT_BYTES) == Some((tag, payload + rest));
    assert tag % 0x1_0000_0000 == tag;
  }

  lemma VarintFieldRoundTrip(number: nat, value: nat, rest: bytes)
    requires Writable(VarintField(number, value))
    ensures ReadField(EncodeField(VarintField(number, value)) + rest) == Item(VarintField(number, value), rest)
  {
    ReadFieldBehindTag(8 * number, Varint(value), rest);
    VarintPayload(number, value, rest);
  }

  lemma BytesFieldRoundTrip(number: nat, data: bytes, rest: bytes)
    requires Writable(BytesField(number, data))
    ensures ReadField(EncodeField(BytesField(number, data)) + rest) == Item(BytesField(number, data), rest)
  {
    ReadFieldBehindTag(8 * number + 2, Varint(|data|) + data, rest);
    BytesPayload(number, data, rest);
  }

  lemma FieldRoundTrip(f: Field, rest: bytes)
    requires Writable(f)
    ensures ReadField(EncodeField(f) + rest) == Item(f, rest)
  {
    match f
    case VarintField(number, value) => VarintFieldRoundTrip(number, value, rest);
    case BytesField(number, data) => BytesFieldRoundTrip(number, data, rest);
  }

  /** Fields of fixed width, which no message here has, are read too: eight or four bytes behind the tag. */
  lemma FixedFieldRoundTrip(f: Field, rest: bytes)
    requires 1 <= f.number < 16
    requires (f.Fixed64Field? && |f.data| == 8) || (f.Fixed32Field? && |f.data| == 4)
    ensures ReadField(EncodeField(f) + rest) == Item(f, rest)
  {
    var tag := Tag(f);
    ReadFieldBehindTag(tag, f.data, rest);
    FixedPayload(f, rest);
    hide Varint, ReadField, ReadPayload;
    assert EncodeField(f) + rest == Varint(tag) + f.data + rest;
  }

  lemma FixedPayload(f: Field, rest: bytes)
    requires 1 <= f.number && ((f.Fixed64Field? && |f.data| == 8) || (f.Fixed32Field? && |f.data| == 4))
    ensures ReadPayload(Tag(f), f.data + rest) == Item(f, rest)
  {
    hide ReadVarint;
    assert (f.data + rest)[..|f.data|] == f.data && (f.data + rest)[|f.data|..] == rest;
    assert Tag(f) % 8 == if f.Fixed64Field? then 1 else 5;
    assert Tag(f) / 8 == f.number;
  }

  /** Ten bytes that all announce another one are no varint. */
  lemma {:induction false} EndlessVarintFails(s: bytes, budget: nat)
    requires budget <= |s| && forall i :: 0 <= i < budget ==> s[i] >= 0x80
    ensures ReadVarint(s, budget) == None
    ensures budget == 10 ==> ReadField(s) == Malformed || s == []
    decreases budget
  {
    if budget > 0 {
      forall i | 0 <= i < budget - 1 ensures s[1..][i] >= 0x80 { assert s[1..][i] == s[i + 1]; }
      EndlessVarintFails(s[1..], budget - 1);
    }
  }

  lemma TakeDropExtends(s: bytes, n: nat, more: bytes)
    requires n <= |s|
    ensures (s + more)[..n] == s[..n] && (s + more)[n..] == s[n..] + more
  {
  }

  lemma DelimitedExtends(tag: nat, s: bytes, more: bytes)
    requires tag % 8 == 2 && ReadPayload(tag, s).Item?
    ensures ReadPayload(tag, s + more) == Item(ReadPayload(tag, s).field, ReadPayload(tag, s).rest + more)
  {
    ReadVarintExtends(s, MAX_VARINT_BYTES, more);
    var (len, rest) := ReadVarint(s, MAX_VARINT_BYTES).value;
    TakeDropExtends(rest, len, more);
  }

  lemma ReadPayloadExtends(tag: nat, s: bytes, more: bytes)
    requires ReadPayload(tag, s).Item?
    ensures ReadPayload(tag, s + more) == Item(ReadPayload(tag, s).field, ReadPayload(tag, s).rest + more)
  {
    var kind := tag % 8;
    if kind == 2 {
      DelimitedExtends(tag, s, more);
    } else if kind == 0 {
      ReadVarintExtends(s, MAX_VARINT_BYTES, more);
    } else {
      TakeDropExtends(s, if kind == 1 then 8 else 4, more);
    }
  }

  /** More input behind a field does not change it. */
  lemma ReadFieldExtends(s: bytes, more: bytes)
    requires ReadField(s).Item?
    ensures ReadField(s + more) == Item(ReadField(s).field, ReadField(s).rest + more)
  {
    ReadVarintExtends(s, MAX_VARINT_BYTES, more);
    var (n, rest) := ReadVarint(s, MAX_VARINT_BYTES).value;
    ReadPayloadExtends(n % 0x1_0000_0000, rest, more);
  }

  /// The parse loop of a message: read a field, let the message take it, until the input ends

  function Parse<M>(step: (M, Field) -> Option<M>, m: M, s: bytes): Option<M>
    decreases |s|
  {
    match ReadField(s)
    case EndOfInput => Some(m)
    case Malformed => None
    case Item(f, rest) =>
      match step(m, f)
      case None => None
      case Some(m') => Parse(step, m', rest)
  }

  function Fold<M>(step: (M, Field) -> Option<M>, m: M, fs: seq<Field>): Option<M> {
    if fs == [] then Some(m)
    else
      match Fold(step, m, fs[..|fs| - 1])
      case None => None
      case Some(m') => step(m', fs[|fs| - 1])
  }

  function EncodeFields(fs: seq<Field>): bytes {
    if fs == [] then [] else EncodeFields(fs[..|fs| - 1]) + EncodeField(fs[|fs| - 1])
  }

  predicate AllWritable(fs: seq<Field>) {
    forall i :: 0 <= i < |fs| ==> Writable(fs[i])
  }

  /** What `Parse` does with the rest of the input, given the message so far. */
  function Continue<M>(step: (M, Field) -> Option<M>, r: Option<M>, s: bytes): Option<M> {
    match r
    case None => None
    case Some(m) => Parse(step, m, s)
  }

  /** Parsing the encoding of fields is folding over them, for every message type. */
  lemma {:induction false} ParseOfEncoding<M>(step: (M, Field) -> Option<M>, m: M, fs: seq<Field>, rest: bytes)
    requires AllWritable(fs)
    ensures Parse(step, m, EncodeFields(fs) + rest) == Continue(step, Fold(step, m, fs), rest)
    decreases |fs|
  {
    if fs == [] {
      assert EncodeFields(fs) + rest == rest;
    } else {
      var front, last := fs[..|fs| - 1], fs[|fs| - 1];
      Associative(EncodeFields(front), EncodeField(last), rest);
      ParseOfEncoding(step, m, front, EncodeField(last) + rest);
      FieldRoundTrip(last, rest);
    }
  }

  lemma ParseOfWhole<M>(step: (M, Field) -> Option<M>, m: M, fs: seq<Field>)
    requires AllWritable(fs)
    ensures Parse(step, m, EncodeFields(fs)) == Fold(step, m, fs)
  {
    ParseOfEncoding(step, m, fs, []);
    assert EncodeFields(fs) + [] == EncodeFields(fs);
  }

  /** For every input, not only encodings: parsing a concatenation is parsing one part after the other. */
  lemma {:induction false} ParseOfConcatenation<M>(step: (M, Field) -> Option<M>, m: M, s: bytes, more: bytes)
    requires Parse(step, m, s).Some?
    ensures Parse(step, m, s + more) == Parse(step, Parse(step, m, s).value, more)
    decreases |s|
  {
    if s == [] {
      assert s + more == more;
    } else {
      ReadFieldExtends(s, more);
      var Item(f, rest) := ReadField(s);
      ParseOfConcatenation(step, step(m, f).value, rest, more);
    }
  }

  lemma {:induction false} FoldAppend<M>(step: (M, Field) -> Option<M>, m: M, fs: seq<Field>, gs: seq<Field>)
    ensures Fold(step, m, fs + gs) ==
            match Fold(step, m, fs) { case None => None case Some(m') => Fold(step, m', gs) }
    decreases |gs|
  {
    if gs == [] {
      assert fs + gs == fs;
    } else {
      assert (fs + gs)[..|fs + gs| - 1] == fs + gs[..|gs| - 1];
      FoldAppend(step, m, fs, gs[..|gs| - 1]);
    }
  }

  function Bind<M>(step: (M, Field) -> Option<M>, r: Option<M>, f: Field): Option<M> {
    match r
    case None => None
    case Some(m) => step(m, f)
  }

  /** A fold, given the results after each number of fields. */
  lemma {:induction false} FoldStages<M>(step: (M, Field) -> Option<M>, m: M, fs: seq<Field>, stages: seq<Option<M>>)
    requires |stages| == |fs| + 1 && stages[0] == Some(m)
    requires forall i :: 0 <= i < |fs| ==> stages[i + 1] == Bind(step, stages[i], fs[i])
    ensures Fold(step, m, fs) == stages[|fs|]
    decreases |fs|
  {
    if fs != [] {
      var front := fs[..|fs| - 1];
      assert forall i :: 0 <= i < |front| ==> front[i] == fs[i];
      FoldStages(step, m, front, stages[..|fs|]);
    }
  }

  lemma {:induction false} EncodeFieldsAppend(fs: seq<Field>, gs: seq<Field>)
    ensures EncodeFields(fs + gs) == EncodeFields(fs) + EncodeFields(gs)
    decreases |gs|
  {
    if gs == [] {
      assert fs + gs == fs;
    } else {
      assert (fs + gs)[..|fs + gs| - 1] == fs + gs[..|gs| - 1];
      EncodeFieldsAppend(fs, gs[..|gs| - 1]);
      Associative(EncodeFields(fs), EncodeFields(gs[..|gs| - 1]), EncodeField(gs[|gs| - 1]));
    }
  }
}
