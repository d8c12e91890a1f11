/** The tokens a TBON parser reports, in the order of the `TBONToken` enumeration. */
module TbonToken {
  import opened JavaTypes

  datatype Token =
    | NotAvailable
    | Null
    | False
    | True
    | Int8
    | Int16
    | Int32
    | Int64
    | Integer
    | Float32
    | Float64
    | Decimal
    | Time
    | Date
    | DateTime
    | DateTimeTZ
    | Character
    | String
    | Octet
    | PrimitiveArrayOfBoolean
    | PrimitiveArrayOfShort
    | PrimitiveArrayOfInt
    | PrimitiveArrayOfLong
    | PrimitiveArrayOfFloat
    | PrimitiveArrayOfDouble
    | PrimitiveArrayOfChar
    | Array
    | Object
    | CustomType
    | EndOfStructure

  /** The element kinds of the typed arrays, one per `PrimitiveArrayOf…` token. */
  datatype PrimKind = BooleanKind | ShortKind | IntKind | LongKind | FloatKind | DoubleKind | CharKind

  /** The token that announces a typed array of the given kind. */
  function PrimitiveArrayToken(k: PrimKind): (t: Token)
    ensures t.PrimitiveArrayOfBoolean? || t.PrimitiveArrayOfShort? || t.PrimitiveArrayOfInt?
         || t.PrimitiveArrayOfLong? || t.PrimitiveArrayOfFloat? || t.PrimitiveArrayOfDouble?
         || t.PrimitiveArrayOfChar?
  {
    match k
    case BooleanKind => PrimitiveArrayOfBoolean
    case ShortKind => PrimitiveArrayOfShort
    case IntKind => PrimitiveArrayOfInt
    case LongKind => PrimitiveArrayOfLong
    case FloatKind => PrimitiveArrayOfFloat
    case DoubleKind => PrimitiveArrayOfDouble
    case CharKind => PrimitiveArrayOfChar
  }

  /** The inverse of `PrimitiveArrayToken`, for the tokens that announce typed arrays. */
  function PrimitiveArrayKindOf(t: Token): (r: Option<PrimKind>)
    ensures r.Some? ==> PrimitiveArrayToken(r.value) == t
    ensures forall k :: PrimitiveArrayToken(k) == t ==> r == Some(k)
  {
    match t
    case PrimitiveArrayOfBoolean => Some(BooleanKind)
    case PrimitiveArrayOfShort => Some(ShortKind)
    case PrimitiveArrayOfInt => Some(IntKind)
    case PrimitiveArrayOfLong => Some(LongKind)
    case PrimitiveArrayOfFloat => Some(FloatKind)
    case PrimitiveArrayOfDouble => Some(DoubleKind)
    case PrimitiveArrayOfChar => Some(CharKind)
    case _ => None
  }
}
