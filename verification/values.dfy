/** Cell and property values, and the DBNull normalisation every read path applies. */
module Values {
  import opened Outcomes

  /** A value as the driver hands it out: the database's NULL marker (`DBNull.Value`),
      a plain null reference, or a payload. */
  datatype Value = DBNull | Null | Int(i: int) | Str(s: string)

  /** The normalisation applied to every value read: the NULL marker becomes a null
      reference, every other value is kept. */
  function Normalise(v: Value): (r: Value)
    ensures r != DBNull
    ensures v != DBNull ==> r == v
    ensures v == DBNull ==> r == Null
  {
    if v == DBNull then Null else v
  }

  /** Conversion of a read value to the item type, after normalisation. The conversion is
      a collaborator given as a function; it never sees the NULL marker. */
  function Coerce<T>(convert: Value -> Result<T>, v: Value): (r: Result<T>)
    ensures v == DBNull ==> r == convert(Null)
    ensures v != DBNull ==> r == convert(v)
    ensures exists u :: u != DBNull && r == convert(u)
  {
    convert(Normalise(v))
  }
}
