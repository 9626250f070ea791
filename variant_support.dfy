/** The runtime's tagged-union value: an `int` tag and a 16-byte payload
    buffer that holds an `int`, a `double` or a pointer in its leading bytes.
    Every operation is a value-in, value-out function; the stderr line that a
    wrong-tag access prints is the `diagnostic` flag of the result. */
module VariantSupport {
  import opened Bytes
  import opened Wrappers
  import Decimal

  const PayloadSize: nat := 16

  /** The `value_data` buffer. */
  type Payload = s: seq<Byte> | |s| == 16 witness seq(16, _ => 0)

  /** A `double`, kept as its eight-byte bit pattern. */
  type Double = b: seq<Byte> | |b| == 8 witness seq(8, _ => 0)

  /** 0.0, whose bit pattern is all zero bytes. */
  const ZeroDouble: Double := [0, 0, 0, 0, 0, 0, 0, 0]

  const IntTag: Int32 := 0
  const FloatTag: Int32 := 1
  const StringTag: Int32 := 2
  const SemaphoreTag: Int32 := 3
  const MutexTag: Int32 := 4
  const BarrierTag: Int32 := 5
  const ThreadTag: Int32 := 6
  const ArrayTag: Int32 := 7
  const NullTag: Int32 := 8

  datatype Variant = Variant(tag: Int32, data: Payload)

  /** A getter's or a conversion's result, and whether it printed a diagnostic. */
  datatype Got<+T> = Got(value: T, diagnostic: bool)

  function Zeros(n: nat): (s: seq<Byte>)
    ensures |s| == n && forall i :: 0 <= i < n ==> s[i] == 0
  {
    seq(n, _ => 0)
  }

  /** The buffer after `memset(data, 0, 16)` and a memcpy of `bytes` to its start. */
  function Store(bytes: seq<Byte>): (p: Payload)
    requires |bytes| <= PayloadSize
    ensures p[..|bytes|] == bytes
    ensures forall i :: |bytes| <= i < PayloadSize ==> p[i] == 0
  {
    bytes + Zeros(PayloadSize - |bytes|)
  }

  lemma StoreInjective(a: seq<Byte>, b: seq<Byte>)
    requires |a| == |b| <= PayloadSize
    ensures Store(a) == Store(b) <==> a == b
  {
  }

  // Tag tests

  // Each `variant_is_*` test holds exactly when `variant_type` names its kind,
  // so at most one of them holds.

  function IsInt(v: Variant): (b: bool)
    ensures b <==> TypeName(v) == "int"
  {
    v.tag == IntTag
  }

  function IsFloat(v: Variant): (b: bool)
    ensures b <==> TypeName(v) == "float"
  {
    v.tag == FloatTag
  }

  function IsString(v: Variant): (b: bool)
    ensures b <==> TypeName(v) == "string"
  {
    v.tag == StringTag
  }

  function IsSemaphore(v: Variant): (b: bool)
    ensures b <==> TypeName(v) == "semaphore"
  {
    v.tag == SemaphoreTag
  }

  function IsMutex(v: Variant): (b: bool)
    ensures b <==> TypeName(v) == "mutex"
  {
    v.tag == MutexTag
  }

  function IsBarrier(v: Variant): (b: bool)
    ensures b <==> TypeName(v) == "barrier"
  {
    v.tag == BarrierTag
  }

  function IsThread(v: Variant): (b: bool)
    ensures b <==> TypeName(v) == "thread"
  {
    v.tag == ThreadTag
  }

  function IsArray(v: Variant): (b: bool)
    ensures b <==> TypeName(v) == "array"
  {
    v.tag == ArrayTag
  }

  function IsNull(v: Variant): (b: bool)
    ensures b <==> TypeName(v) == "null"
  {
    v.tag == NullTag
  }

  /** The range test of `variant_get_pointer`: the tags string up to array. */
  function IsPointerKind(v: Variant): (b: bool)
    ensures b <==> TypeName(v) in ["string", "semaphore", "mutex", "barrier", "thread", "array"]
  {
    StringTag <= v.tag <= ArrayTag
  }

  // Tag names

  /** `variant_type`. */
  function TypeName(v: Variant): (name: string)
    ensures name == "unknown" <==> !(IntTag <= v.tag <= NullTag)
  {
    match v.tag
    case 0 => "int"
    case 1 => "float"
    case 2 => "string"
    case 3 => "semaphore"
    case 4 => "mutex"
    case 5 => "barrier"
    case 6 => "thread"
    case 7 => "array"
    case 8 => "null"
    case _ => "unknown"
  }

  /** The tag a name stands for; the partner of `TypeName`. */
  function TagOfName(name: string): (t: Option<Int32>)
  {
    if name == "int" then Some(IntTag)
    else if name == "float" then Some(FloatTag)
    else if name == "string" then Some(StringTag)
    else if name == "semaphore" then Some(SemaphoreTag)
    else if name == "mutex" then Some(MutexTag)
    else if name == "barrier" then Some(BarrierTag)
    else if name == "thread" then Some(ThreadTag)
    else if name == "array" then Some(ArrayTag)
    else if name == "null" then Some(NullTag)
    else None
  }

  /** Each of the nine tags has its own name, so the name identifies the tag. */
  lemma TypeNameRoundTrip(v: Variant)
    ensures IntTag <= v.tag <= NullTag ==> TagOfName(TypeName(v)) == Some(v.tag)
    ensures !(IntTag <= v.tag <= NullTag) ==> TagOfName(TypeName(v)) == None
  {
  }

  // Getters: on a wrong tag they print a diagnostic and return a default.

  /** `variant_get_int`. */
  function GetInt(v: Variant): (r: Got<Int32>)
    ensures r.diagnostic <==> !IsInt(v)
    ensures !IsInt(v) ==> r.value == 0
    ensures IsInt(v) ==> EncodeInt32(r.value) == v.data[..4]
  {
    if !IsInt(v) then Got(0, true)
    else
      Int32BytesRoundTrip(v.data[..4]);
      Got(DecodeInt32(v.data[..4]), false)
  }

  /** `variant_get_float`. */
  function GetFloat(v: Variant): (r: Got<Double>)
    ensures r.diagnostic <==> !IsFloat(v)
    ensures !IsFloat(v) ==> r.value == ZeroDouble
    ensures IsFloat(v) ==> r.value == v.data[..8]
  {
    if !IsFloat(v) then Got(ZeroDouble, true) else Got(v.data[..8], false)
  }

  /** `variant_get_string`: the stored `char*`, or NULL. */
  function GetString(v: Variant): (r: Got<Address>)
    ensures r.diagnostic <==> !IsString(v)
    ensures !IsString(v) ==> r.value == Null
    ensures IsString(v) ==> EncodeAddress(r.value) == v.data[..8]
  {
    if !IsString(v) then Got(Null, true)
    else
      AddressBytesRoundTrip(v.data[..8]);
      Got(DecodeAddress(v.data[..8]), false)
  }

  /** `variant_get_pointer`: accepts the tags string up to array. */
  function GetPointer(v: Variant): (r: Got<Address>)
    ensures r.diagnostic <==> !IsPointerKind(v)
    ensures !IsPointerKind(v) ==> r.value == Null
    ensures IsPointerKind(v) ==> EncodeAddress(r.value) == v.data[..8]
  {
    if v.tag < StringTag || v.tag > ArrayTag then Got(Null, true)
    else
      AddressBytesRoundTrip(v.data[..8]);
      Got(DecodeAddress(v.data[..8]), false)
  }

  // Constructors: each zeroes the whole buffer, then copies the value in.

  /** `variant_create_int`. */
  function CreateInt(x: Int32): (r: Variant)
    ensures IsInt(r) && TypeName(r) == "int"
    ensures GetInt(r) == Got(x, false)
    ensures r.data[4..] == Zeros(12)
  {
    Int32RoundTrip(x);
    Variant(IntTag, Store(EncodeInt32(x)))
  }

  /** `variant_create_float`. */
  function CreateFloat(d: Double): (r: Variant)
    ensures IsFloat(r) && TypeName(r) == "float"
    ensures GetFloat(r) == Got(d, false)
    ensures r.data[8..] == Zeros(8)
  {
    Variant(FloatTag, Store(d))
  }

  /** `variant_create_string`: stores the `char*` itself, not the characters. */
  function CreateString(s: Address): (r: Variant)
    ensures IsString(r) && TypeName(r) == "string"
    ensures GetString(r) == Got(s, false)
    ensures GetPointer(r) == Got(s, false)
    ensures r.data[8..] == Zeros(8)
  {
    AddressRoundTrip(s);
    Variant(StringTag, Store(EncodeAddress(s)))
  }

  /** `variant_create_pointer`: stores whatever tag it is given. */
  function CreatePointer(p: Address, tag: Int32): (r: Variant)
    ensures r.tag == tag
    ensures GetPointer(r) == if StringTag <= tag <= ArrayTag then Got(p, false) else Got(Null, true)
    ensures r.data[..8] == EncodeAddress(p)
    ensures r.data[8..] == Zeros(8)
  {
    AddressRoundTrip(p);
    Variant(tag, Store(EncodeAddress(p)))
  }

  /** `variant_create_semaphore`. */
  function CreateSemaphore(p: Address): (r: Variant)
    ensures IsSemaphore(r) && TypeName(r) == "semaphore"
    ensures GetPointer(r) == Got(p, false)
  {
    CreatePointer(p, SemaphoreTag)
  }

  /** `variant_create_mutex`. */
  function CreateMutex(p: Address): (r: Variant)
    ensures IsMutex(r) && TypeName(r) == "mutex"
    ensures GetPointer(r) == Got(p, false)
  {
    CreatePointer(p, MutexTag)
  }

  /** `variant_create_barrier`. */
  function CreateBarrier(p: Address): (r: Variant)
    ensures IsBarrier(r) && TypeName(r) == "barrier"
    ensures GetPointer(r) == Got(p, false)
  {
    CreatePointer(p, BarrierTag)
  }

  /** `variant_create_thread`. */
  function CreateThread(p: Address): (r: Variant)
    ensures IsThread(r) && TypeName(r) == "thread"
    ensures GetPointer(r) == Got(p, false)
  {
    CreatePointer(p, ThreadTag)
  }

  /** `variant_create_array`. */
  function CreateArray(p: Address): (r: Variant)
    ensures IsArray(r) && TypeName(r) == "array"
    ensures GetPointer(r) == Got(p, false)
  {
    CreatePointer(p, ArrayTag)
  }

  /** `variant_create_null`. */
  function CreateNull(): (r: Variant)
    ensures IsNull(r) && TypeName(r) == "null"
    ensures r.data == Zeros(PayloadSize)
    ensures GetPointer(r) == Got(Null, true)
  {
    Variant(NullTag, Store([]))
  }

  // Copy and comparison

  /** `variant_copy`: a shallow copy of the tag and the 16 bytes. */
  function Copy(v: Variant): (r: Variant)
    ensures r.tag == v.tag && r.data == v.data
    ensures Equals(r, v)
  {
    Variant(v.tag, v.data[..])
  }

  /** `variant_equals`: equal tags, then `memcmp` of all 16 bytes. */
  function Equals(a: Variant, b: Variant): (r: bool)
    ensures r <==> a.tag == b.tag && forall i :: 0 <= i < PayloadSize ==> a.data[i] == b.data[i]
  {
    if a.tag != b.tag then false else a.data == b.data
  }

  /** `variant_equals` is exactly equality of the two values, so it is an
      equivalence relation. */
  lemma EqualsIsValueEquality(a: Variant, b: Variant, c: Variant)
    ensures Equals(a, b) <==> a == b
    ensures Equals(a, a)
    ensures Equals(a, b) ==> Equals(b, a)
    ensures Equals(a, b) && Equals(b, c) ==> Equals(a, c)
  {
  }

  /** No numeric coercion: an int never equals a float, whatever the bytes. */
  lemma IntNeverEqualsFloat(x: Int32, d: Double)
    ensures !Equals(CreateInt(x), CreateFloat(d))
  {
  }

  /** Two ints are `variant_equals` exactly when they are the same int. */
  lemma EqualsCreateInt(x: Int32, y: Int32)
    ensures Equals(CreateInt(x), CreateInt(y)) <==> x == y
  {
  }

  /** Two pointer variants are `variant_equals` exactly when both the tag and
      the address agree. */
  lemma EqualsCreatePointer(p: Address, s: Int32, q: Address, t: Int32)
    ensures Equals(CreatePointer(p, s), CreatePointer(q, t)) <==> p == q && s == t
  {
    EncodeAddressInjective(p, q);
    StoreInjective(EncodeAddress(p), EncodeAddress(q));
  }

  /** A pointer stored under the null tag equals `variant_create_null()` only
      when the pointer is NULL: the bytes are compared whatever the tag. */
  lemma NullTaggedPointerEqualsNull(p: Address)
    ensures Equals(CreatePointer(p, NullTag), CreateNull()) <==> p == Null
  {
    var r, z := CreatePointer(p, NullTag), CreateNull();
    if p != Null {
      EncodeAddressInjective(p, Null);
      EncodeZero(8);
      assert z.data[..8] == Zeros(8);
      var i :| 0 <= i < 8 && r.data[..8][i] != z.data[..8][i];
      assert r.data[i] != z.data[i];
    }
  }

  /** NULL is stored as eight zero bytes. */
  lemma {:induction false} EncodeZero(n: nat)
    ensures EncodeLE(0, n) == Zeros(n)
  {
    if n > 0 {
      EncodeZero(n - 1);
      assert Zeros(n) == [0] + Zeros(n - 1);
    }
  }

  // Display

  /** What the host's printf prints for the conversions this model keeps
      abstract: `%f` of a double, `%s` of a `char*`, `%p` of a pointer.
      Each character of these texts, as of every text here, stands for one
      byte of the C string, so a cut at 255 characters is the cut at 255
      bytes that `snprintf` makes. */
  datatype Host = Host(floatText: Double -> string, cString: Address -> string, addressText: Address -> string)

  /** The size of the static buffer `variant_to_string` writes into. */
  const BufferSize: nat := 256

  /** What `snprintf` leaves in the buffer: at most 255 characters, then NUL. */
  function Clip(s: string): (r: string)
    ensures |r| < BufferSize
    ensures |r| <= |s| && r == s[..|r|]
    ensures |s| < BufferSize ==> r == s
    ensures |r| == if |s| < BufferSize then |s| else BufferSize - 1
  {
    if |s| < BufferSize then s else s[..BufferSize - 1]
  }

  /** The text `"<kind>@%p"` that the pointer kinds render as. */
  function AtAddress(kind: string, p: Address, host: Host): (s: string)
    requires |kind| < 16
    ensures |kind| + 1 <= |s| && s[..|kind| + 1] == kind + "@"
    ensures s == Clip(kind + "@" + host.addressText(p))
  {
    var text := kind + "@" + host.addressText(p);
    assert text[..|kind| + 1] == kind + "@";
    Clip(text)
  }

  /** `variant_to_string`. */
  function ToString(v: Variant, host: Host): (s: string)
    ensures |s| < BufferSize
    ensures IsInt(v) ==> s == Decimal.Render(GetInt(v).value)
    ensures IsInt(v) ==> Decimal.Parse(s) == Some(GetInt(v).value)
    ensures IsFloat(v) ==> s == Clip(host.floatText(GetFloat(v).value))
    ensures IsString(v) ==> s == Clip(host.cString(GetString(v).value))
    ensures SemaphoreTag <= v.tag <= ArrayTag ==>
      |TypeName(v)| + 1 <= |s| && s[..|TypeName(v)| + 1] == TypeName(v) + "@" &&
      s == Clip(TypeName(v) + "@" + host.addressText(GetPointer(v).value))
    ensures IsNull(v) ==> s == "null"
    ensures !(IntTag <= v.tag <= NullTag) ==> s == "unknown(tag=" + Decimal.Render(v.tag) + ")"
  {
    match v.tag
    case 0 =>
      Decimal.RenderRoundTrip(GetInt(v).value);
      Decimal.RenderInt32Short(GetInt(v).value);
      Clip(Decimal.Render(GetInt(v).value))
    case 1 => Clip(host.floatText(GetFloat(v).value))
    case 2 => Clip(host.cString(GetString(v).value))
    case 3 => AtAddress("semaphore", GetPointer(v).value, host)
    case 4 => AtAddress("mutex", GetPointer(v).value, host)
    case 5 => AtAddress("barrier", GetPointer(v).value, host)
    case 6 => AtAddress("thread", GetPointer(v).value, host)
    case 7 => AtAddress("array", GetPointer(v).value, host)
    case 8 => Clip("null")
    case _ =>
      Decimal.RenderInt32Short(v.tag);
      Clip("unknown(tag=" + Decimal.Render(v.tag) + ")")
  }

  // Conversions: only between int and float; anything else becomes null.

  /** `variant_to_int`; `truncate` is the host's `(int)` cast of a double. */
  function ToInt(v: Variant, truncate: Double -> Int32): (r: Got<Variant>)
    ensures IsInt(r.value) || IsNull(r.value)
    ensures IsNull(r.value) <==> !(IsInt(v) || IsFloat(v))
    ensures r.diagnostic <==> IsNull(r.value)
    ensures IsInt(v) ==> r.value == v
    ensures IsFloat(v) ==> GetInt(r.value).value == truncate(GetFloat(v).value)
    ensures IsNull(r.value) ==> r.value == CreateNull()
  {
    match v.tag
    case 0 => Got(v, false)
    case 1 => Got(CreateInt(truncate(GetFloat(v).value)), false)
    case _ => Got(CreateNull(), true)
  }

  /** `variant_to_float`; `widen` is the host's `(double)` cast of an int. */
  function ToFloat(v: Variant, widen: Int32 -> Double): (r: Got<Variant>)
    ensures IsFloat(r.value) || IsNull(r.value)
    ensures IsNull(r.value) <==> !(IsInt(v) || IsFloat(v))
    ensures r.diagnostic <==> IsNull(r.value)
    ensures IsFloat(v) ==> r.value == v
    ensures IsInt(v) ==> GetFloat(r.value).value == widen(GetInt(v).value)
    ensures IsNull(r.value) ==> r.value == CreateNull()
  {
    match v.tag
    case 1 => Got(v, false)
    case 0 => Got(CreateFloat(widen(GetInt(v).value)), false)
    case _ => Got(CreateNull(), true)
  }

  /** Converting twice is converting once, and the second time is silent. */
  lemma ConversionsIdempotent(v: Variant, truncate: Double -> Int32, widen: Int32 -> Double)
    ensures ToInt(ToInt(v, truncate).value, truncate).value == ToInt(v, truncate).value
    ensures ToFloat(ToFloat(v, widen).value, widen).value == ToFloat(v, widen).value
    ensures IsInt(v) || IsFloat(v) ==> !ToInt(ToInt(v, truncate).value, truncate).diagnostic
    ensures IsInt(v) || IsFloat(v) ==> !ToFloat(ToFloat(v, widen).value, widen).diagnostic
  {
  }
}
