/**
  FML32 field identifiers: a 32-bit unsigned value with the field type in the
  bits above bit 25 and the field number in the 25 bits below, so that numeric
  order on ids is type-major, then field number. The id 0 is `BADFLDID`.
 */
module FieldIds {
  import opened Wrappers
  import opened FmlErrors

  const TwoTo32: int := 0x1_0000_0000

  /** `FLDID32`, an unsigned 32-bit integer. */
  type FieldId = x: int | 0 <= x < TwoTo32

  const BADFLDID: FieldId := 0

  /** The field number occupies the low 25 bits. */
  const NumberLimit: int := 0x200_0000

  const FLD_SHORT: int := 0
  const FLD_LONG: int := 1
  const FLD_CHAR: int := 2
  const FLD_FLOAT: int := 3
  const FLD_DOUBLE: int := 4
  const FLD_STRING: int := 5
  const FLD_CARRAY: int := 6
  const FLD_FML32: int := 10

  /** The type tags a field id may carry. */
  predicate ValidType(t: int) {
    t == FLD_SHORT || t == FLD_LONG || t == FLD_CHAR || t == FLD_FLOAT
    || t == FLD_DOUBLE || t == FLD_STRING || t == FLD_CARRAY || t == FLD_FML32
  }

  /** The types whose values have a fixed width. */
  predicate IsFixed(t: int) {
    t == FLD_SHORT || t == FLD_LONG || t == FLD_CHAR || t == FLD_FLOAT || t == FLD_DOUBLE
  }

  /** The width in bytes of a fixed type on an LP64 platform. */
  function SizeOf(t: int): (n: nat)
    requires IsFixed(t)
    ensures n > 0
  {
    if t == FLD_SHORT then 2
    else if t == FLD_LONG then 8
    else if t == FLD_CHAR then 1
    else if t == FLD_FLOAT then 4
    else 8
  }

  /** `Fldtype32`: the type tag, read from the high bits. */
  function Fldtype32(id: FieldId): (t: int)
    ensures 0 <= t < 128
  {
    id / NumberLimit
  }

  /** `Fldno32`: the field number, read from the low bits. */
  function Fldno32(id: FieldId): (n: int)
    ensures 0 <= n < NumberLimit
  {
    id % NumberLimit
  }

  /**
    `Fmkfldid32`: packs a type and a field number. An unknown type is
    `FTYPERR`; a number that is 0 or does not fit in 25 bits is `FBADFLD`.
   */
  function Fmkfldid32(t: int, num: int): (r: Result<FieldId, Error>)
    ensures r.Failure? <==> !ValidType(t) || num <= 0 || num >= NumberLimit
    ensures !ValidType(t) ==> r == Failure(FTYPERR)
    ensures ValidType(t) && r.Failure? ==> r == Failure(FBADFLD)
    ensures r.Success? ==> r.value != BADFLDID
    ensures r.Success? ==> Fldtype32(r.value) == t && Fldno32(r.value) == num
  {
    if !ValidType(t) then Failure(FTYPERR)
    else if num <= 0 || num >= NumberLimit then Failure(FBADFLD)
    else Success(t * NumberLimit + num)
  }

  /** Every id is rebuilt from its type and number. */
  lemma FieldIdDecomposes(id: FieldId)
    ensures id == Fldtype32(id) * NumberLimit + Fldno32(id)
  {
  }

  /**
    Numeric order on ids is type-major: an id of a smaller type sorts first
    whatever the field numbers are, and within one type the field number decides.
   */
  lemma TypeMajorOrder(a: FieldId, b: FieldId)
    ensures Fldtype32(a) < Fldtype32(b) ==> a < b
    ensures Fldtype32(a) == Fldtype32(b) ==> (a < b <==> Fldno32(a) < Fldno32(b))
  {
    FieldIdDecomposes(a);
    FieldIdDecomposes(b);
  }

  /**
    The id check every field operation runs first (`FLDID32_CHECK`): an id whose
    type tag is unknown is `FTYPERR`, and only then is `BADFLDID` `FBADFLD`.
   */
  function CheckFieldId(id: FieldId): (r: Option<Error>)
    ensures r == None <==> ValidType(Fldtype32(id)) && id != BADFLDID
    ensures !ValidType(Fldtype32(id)) ==> r == Some(FTYPERR)
    ensures ValidType(Fldtype32(id)) && id == BADFLDID ==> r == Some(FBADFLD)
  {
    if !ValidType(Fldtype32(id)) then Some(FTYPERR)
    else if id == BADFLDID then Some(FBADFLD)
    else None
  }

  /** Every id `Fmkfldid32` makes passes the id check. */
  lemma MadeIdsPassCheck(t: int, num: int)
    requires Fmkfldid32(t, num).Success?
    ensures CheckFieldId(Fmkfldid32(t, num).value) == None
  {
  }
}
