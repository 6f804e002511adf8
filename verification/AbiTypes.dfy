/** Schemas, decoded values and errors of the Solidity ABI decoder. */
module AbiTypes {
  import opened Words

  /** A field kind together with its sub-schema. The last three constructors are the malformed
      fields a caller can build: a struct without schema, an array without element, a type
      number outside the enumeration. */
  datatype Field =
    | Uint8
    | Uint32
    | Uint64
    | Uint256
    | Bytes32
    | Bytes
    | String
    | Bool
    | Address
    | Struct(fields: seq<Field>)
    | Array(elem: Field)
    | StructNil
    | ArrayNil
    | Unknown

  /** A decoded value, tagged by its dynamic Go type. VBytes is both bytes and address;
      VList is both struct and array. */
  datatype Value =
    | VBool(flag: bool)
    | VUint8(n: nat)
    | VUint32(n: nat)
    | VUint64(n: nat)
    | VBig(n: nat)
    | VBytes32(b: seq<Byte>)
    | VBytes(b: seq<Byte>)
    | VString(b: seq<Byte>)
    | VList(vs: seq<Value>)

  /** The four error values of the package, and the Go runtime panic. */
  datatype Error = UnsupportedType | InvalidSchema | InvalidData | DepthLimit | Panic

  datatype Result<+T> = Ok(value: T) | Err(error: Error) {
    predicate IsFailure() {
      Err?
    }

    function PropagateFailure<U>(): Result<U>
      requires Err?
    {
      Err(error)
    }

    function Extract(): T
      requires Ok?
    {
      value
    }
  }

  const MAX_DEPTH: nat := 256

  /** One word below the range of a Go int, so that pos + 32 cannot overflow for a position in
      the buffer. Go's allocator stops far below this length. */
  const MAX_LENGTH: int := TWO_63 - 32

  // ---------------------------------------------------------------- schema analysis

  /** Whether the field needs an offset in the head of its tuple. */
  predicate IsDynamic(f: Field) {
    match f
    case Bytes | String | Array(_) | ArrayNil => true
    case Struct(fs) => AnyDynamic(fs)
    case _ => false
  }

  predicate AnyDynamic(fs: seq<Field>) {
    fs != [] && (IsDynamic(fs[0]) || AnyDynamic(fs[1..]))
  }

  /** Leaves of a field: the words a static value of it is made of. */
  function Leaves(f: Field): nat {
    if f.Struct? then AllLeaves(f.fields) else 1
  }

  function AllLeaves(fs: seq<Field>): nat {
    if fs == [] then 0 else Leaves(fs[0]) + AllLeaves(fs[1..])
  }

  /** Bytes a static field occupies inline. */
  function StaticHeadSize(f: Field): (r: Result<nat>)
    ensures r.Ok? ==> r.value % 32 == 0 && !IsDynamic(f)
    ensures r != Err(Panic)
  {
    match f
    case Struct(fs) => StaticHeadSizes(fs)
    case StructNil => Err(InvalidSchema)
    case Bytes | String | Array(_) | ArrayNil | Unknown => Err(UnsupportedType)
    case _ => Ok(32)
  }

  function StaticHeadSizes(fs: seq<Field>): (r: Result<nat>)
    ensures r.Ok? ==> r.value % 32 == 0 && !AnyDynamic(fs)
    ensures r != Err(Panic)
  {
    if fs == [] then Ok(0)
    else
      var s :- StaticHeadSize(fs[0]);
      var rest :- StaticHeadSizes(fs[1..]);
      AddAligned(s, rest);
      Ok(s + rest)
  }

  /** Bytes a field occupies in the head of its tuple: one offset word when dynamic. */
  function SlotSize(f: Field): (r: Result<nat>)
    ensures r.Ok? ==> r.value % 32 == 0
    ensures IsDynamic(f) ==> r == Ok(32)
    ensures r != Err(Panic)
  {
    if IsDynamic(f) then Ok(32) else StaticHeadSize(f)
  }

  /** No field is malformed. */
  predicate WellFormed(f: Field) {
    match f
    case Struct(fs) => AllWellFormed(fs)
    case Array(e) => WellFormed(e)
    case StructNil | ArrayNil | Unknown => false
    case _ => true
  }

  predicate AllWellFormed(fs: seq<Field>) {
    fs == [] || (WellFormed(fs[0]) && AllWellFormed(fs[1..]))
  }

  /** No struct is without members: the rule of Solidity. */
  predicate NoEmpty(f: Field) {
    match f
    case Struct(fs) => fs != [] && AllNoEmpty(fs)
    case Array(e) => NoEmpty(e)
    case _ => true
  }

  predicate AllNoEmpty(fs: seq<Field>) {
    fs == [] || (NoEmpty(fs[0]) && AllNoEmpty(fs[1..]))
  }

  /** The tuple type an array of n elements is encoded as. */
  function Repeat(f: Field, n: nat): (fs: seq<Field>)
    ensures |fs| == n
  {
    if n == 0 then [] else [f] + Repeat(f, n - 1)
  }

  // ---------------------------------------------------------------- typing of values

  /** The value inhabits the field: right Go type, in range, right number of members. */
  predicate HasType(f: Field, v: Value)
    decreases v, 1
  {
    match f
    case Uint8 => v.VUint8? && v.n < 0x100
    case Uint32 => v.VUint32? && v.n < 0x1_0000_0000
    case Uint64 => v.VUint64? && v.n < TWO_64
    case Uint256 => v.VBig? && v.n < Pow256(32)
    case Bytes32 => v.VBytes32? && |v.b| == 32
    case Bytes => v.VBytes? && |v.b| + 32 < MAX_LENGTH
    case String => v.VString? && |v.b| + 32 < MAX_LENGTH
    case Bool => v.VBool?
    case Address => v.VBytes? && |v.b| == 20
    case Struct(fs) => v.VList? && HaveTypes(fs, v.vs)
    case Array(e) => v.VList? && |v.vs| < TWO_63 && HaveTypes(Repeat(e, |v.vs|), v.vs)
    case StructNil | ArrayNil | Unknown => false
  }

  predicate HaveTypes(fs: seq<Field>, vs: seq<Value>)
    decreases vs, 0
  {
    |fs| == |vs| && (fs != [] ==> HasType(fs[0], vs[0]) && HaveTypes(fs[1..], vs[1..]))
  }

  /** Nesting of structs and arrays below a value, the measure the decoder limits. */
  function Depth(f: Field, v: Value): nat
    requires HasType(f, v)
    decreases v, 1
  {
    match f
    case Struct(fs) => 1 + MaxDepth(fs, v.vs)
    case Array(e) => 1 + MaxDepth(Repeat(e, |v.vs|), v.vs)
    case _ => 0
  }

  function MaxDepth(fs: seq<Field>, vs: seq<Value>): nat
    requires HaveTypes(fs, vs)
    decreases vs, 0
  {
    if fs == [] then 0
    else
      var d, rest := Depth(fs[0], vs[0]), MaxDepth(fs[1..], vs[1..]);
      if d > rest then d else rest
  }

  // ---------------------------------------------------------------- lemmas

  /** The size of a well-formed field is known exactly when it is static, and is a word per leaf. */
  lemma {:induction false} StaticSizeIsLeaves(f: Field)
    requires WellFormed(f)
    ensures StaticHeadSize(f).Ok? <==> !IsDynamic(f)
    ensures StaticHeadSize(f).Ok? ==> StaticHeadSize(f).value == 32 * Leaves(f)
  {
    if f.Struct? {
      StaticSizesAreLeaves(f.fields);
    }
  }

  lemma {:induction false} StaticSizesAreLeaves(fs: seq<Field>)
    requires AllWellFormed(fs)
    ensures StaticHeadSizes(fs).Ok? <==> !AnyDynamic(fs)
    ensures StaticHeadSizes(fs).Ok? ==> StaticHeadSizes(fs).value == 32 * AllLeaves(fs)
  {
    if fs != [] {
      StaticSizeIsLeaves(fs[0]);
      StaticSizesAreLeaves(fs[1..]);
    }
  }

  /** A well-formed static field has a head size, of at least one word when no struct is empty. */
  lemma {:induction false} WellFormedStaticSize(f: Field)
    requires WellFormed(f) && !IsDynamic(f)
    ensures StaticHeadSize(f).Ok? && (NoEmpty(f) ==> StaticHeadSize(f).value >= 32)
  {
    if f.Struct? {
      WellFormedStaticSizes(f.fields);
    }
  }

  lemma {:induction false} WellFormedStaticSizes(fs: seq<Field>)
    requires AllWellFormed(fs) && !AnyDynamic(fs)
    ensures StaticHeadSizes(fs).Ok?
    ensures fs != [] && AllNoEmpty(fs) ==> StaticHeadSizes(fs).value >= 32
  {
    if fs != [] {
      WellFormedStaticSize(fs[0]);
      WellFormedStaticSizes(fs[1..]);
    }
  }

  lemma {:induction false} RepeatWellFormed(f: Field, n: nat)
    requires WellFormed(f)
    ensures AllWellFormed(Repeat(f, n)) && (NoEmpty(f) ==> AllNoEmpty(Repeat(f, n)))
  {
    if n > 0 {
      RepeatWellFormed(f, n - 1);
      assert Repeat(f, n)[1..] == Repeat(f, n - 1);
    }
  }
}
