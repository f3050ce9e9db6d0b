/**
  The FML32 error codes. The C library reports them through the thread-local
  `Ferror32`; the model returns them as values. Numeric codes follow the
  Tuxedo `fml32.h` numbering (0 is "no error").
 */
module FmlErrors {
  import opened Wrappers

  datatype Error =
    | FALIGNERR | FNOTFLD | FNOSPACE | FNOTPRES | FBADFLD | FTYPERR | FEUNIX
    | FBADNAME | FMALLOC | FSYNTAX | FFTOPEN | FFTSYNTAX | FEINVAL | FBADTBL
    | FBADVIEW | FVFSYNTAX | FVFOPEN | FBADACM | FNOCNAME | FEBADOP
    | FNOTRECORD | FRFSYNTAX | FRFOPEN | FBADRECORD

  function Code(e: Error): int {
    match e
    case FALIGNERR => 1
    case FNOTFLD => 2
    case FNOSPACE => 3
    case FNOTPRES => 4
    case FBADFLD => 5
    case FTYPERR => 6
    case FEUNIX => 7
    case FBADNAME => 8
    case FMALLOC => 9
    case FSYNTAX => 10
    case FFTOPEN => 11
    case FFTSYNTAX => 12
    case FEINVAL => 13
    case FBADTBL => 14
    case FBADVIEW => 15
    case FVFSYNTAX => 16
    case FVFOPEN => 17
    case FBADACM => 18
    case FNOCNAME => 19
    case FEBADOP => 20
    case FNOTRECORD => 21
    case FRFSYNTAX => 22
    case FRFOPEN => 23
    case FBADRECORD => 24
  }

  /** The error a numeric code stands for; None for 0 and unknown codes. */
  function FromCode(n: int): (r: Option<Error>)
    ensures r.Some? <==> 1 <= n <= 24
    ensures r.Some? ==> Code(r.value) == n
  {
    match n
    case 1 => Some(FALIGNERR)
    case 2 => Some(FNOTFLD)
    case 3 => Some(FNOSPACE)
    case 4 => Some(FNOTPRES)
    case 5 => Some(FBADFLD)
    case 6 => Some(FTYPERR)
    case 7 => Some(FEUNIX)
    case 8 => Some(FBADNAME)
    case 9 => Some(FMALLOC)
    case 10 => Some(FSYNTAX)
    case 11 => Some(FFTOPEN)
    case 12 => Some(FFTSYNTAX)
    case 13 => Some(FEINVAL)
    case 14 => Some(FBADTBL)
    case 15 => Some(FBADVIEW)
    case 16 => Some(FVFSYNTAX)
    case 17 => Some(FVFOPEN)
    case 18 => Some(FBADACM)
    case 19 => Some(FNOCNAME)
    case 20 => Some(FEBADOP)
    case 21 => Some(FNOTRECORD)
    case 22 => Some(FRFSYNTAX)
    case 23 => Some(FRFOPEN)
    case 24 => Some(FBADRECORD)
    case _ => None
  }

  function Message(e: Error): string {
    match e
    case FALIGNERR => "Fielded buffer not aligned"
    case FNOTFLD => "Buffer not fielded"
    case FNOSPACE => "No space in fielded buffer"
    case FNOTPRES => "Field not present"
    case FBADFLD => "Unknown field number or type"
    case FTYPERR => "Illegal field type"
    case FEUNIX => "case UNIX system call error"
    case FBADNAME => "Unknown field name"
    case FMALLOC => "malloc failed"
    case FSYNTAX => "Bad syntax in Boolean expression"
    case FFTOPEN => "Cannot find or open field table"
    case FFTSYNTAX => "Syntax error in field table"
    case FEINVAL => "Invalid argument to function"
    case FBADTBL => "Destructive concurrent access to field table"
    case FBADVIEW => "Cannot find or get view"
    case FVFSYNTAX => "Syntax error in viewfile"
    case FVFOPEN => "Cannot find or open viewfile"
    case FBADACM => "ACM contains negative value"
    case FNOCNAME => "cname not found"
    case FEBADOP => "Invalid field type"
    case FNOTRECORD => "Invalid record type"
    case FRFSYNTAX => "Syntax error in recordfile"
    case FRFOPEN => "Cannot find or open recordfile"
    case FBADRECORD => "Cannot find or get record"
  }

  /**
    `Fstrerror32`: the message of a known code, the empty string for any other
    integer (0 included).
   */
  function Fstrerror32(err: int): (msg: string)
    ensures msg != "" <==> 1 <= err <= 24
    ensures FromCode(err).Some? ==> msg == Message(FromCode(err).value)
  {
    match FromCode(err)
    case None => ""
    case Some(e) => Message(e)
  }
}
