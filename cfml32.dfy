/**
  The converting entry points of `src/fml32.cpp`: `CFadd32`, `CFchg32` and
  `CFfindocc32` convert the caller's value to the field's type before storing
  or searching; `CFfind32` and `CFget32` convert a stored value to the
  caller's type after fetching it; `Ffinds32` and `Fgets32` are the string
  forms of the last two. Every conversion goes through the per-thread
  `ConversionArea`, whose content a later conversion overwrites.
 */
module CFml32 {
  import opened Wrappers
  import opened FmlErrors
  import opened FieldIds
  import opened Entries
  import opened Fbfr
  import opened Fml32
  import opened TypeConversion

  /** A value found in a valid buffer is of its field's shape, so it can be read as caller memory. */
  lemma FoundReadable(fbfr: Fbfr32?, id: FieldId, oc: nat)
    requires Usable(fbfr) && Ffind32(fbfr, id, oc).Success?
    ensures WellTyped(id, Ffind32(fbfr, id, oc).value)
    ensures Readable(Fldtype32(id), Ffind32(fbfr, id, oc).value, |Ffind32(fbfr, id, oc).value|)
  {
    var i := Position(fbfr.entries, id, oc);
    assert fbfr.entries[i] in fbfr.entries;
  }

  /**
    What `CFfind32` yields: occurrence `oc` of `id` converted from the field's
    type to `totype`. The errors are those of the guards, of `find` and of the
    conversion, in that order.
   */
  function Fetched(fbfr: Fbfr32?, id: FieldId, oc: nat, totype: int): (r: Result<Converted, Error>)
    requires Usable(fbfr)
    reads fbfr
    ensures Guard(fbfr, id).Some? ==> r == Failure(Guard(fbfr, id).value)
    ensures Guard(fbfr, id).None? && oc >= |Values(fbfr.entries, id)| ==> r == Failure(FNOTPRES)
    ensures Guard(fbfr, id).None? && oc < |Values(fbfr.entries, id)| ==>
      (r.Failure? <==> !IsConvertible(Fldtype32(id)) || !IsConvertible(totype))
      && (r.Failure? ==> r.error == FEBADOP)
    ensures r.Success? ==> r.value.len == |r.value.bytes| && Readable(totype, r.value.bytes, r.value.len)
  {
    match Ffind32(fbfr, id, oc)
    case Failure(e) => Failure(e)
    case Success(v) =>
      FoundReadable(fbfr, id, oc);
      Convert(totype, v, Fldtype32(id), |v|)
  }

  /**
    Fetching a `short`, `long`, `char` or string field as its own type gives
    back the stored bytes unchanged.
   */
  lemma FetchedOwnType(fbfr: Fbfr32?, id: FieldId, oc: nat)
    requires Usable(fbfr) && Ffind32(fbfr, id, oc).Success?
    requires var t := Fldtype32(id); t == FLD_SHORT || t == FLD_LONG || t == FLD_CHAR || t == FLD_STRING
    ensures var v := Ffind32(fbfr, id, oc).value; Fetched(fbfr, id, oc, Fldtype32(id)) == Success(Converted(v, |v|))
  {
    var v := Ffind32(fbfr, id, oc).value;
    FoundReadable(fbfr, id, oc);
    var t := Fldtype32(id);
    if t == FLD_STRING {
      StringToString(v, t, |v|);
    } else {
      assert v[..|v|] == v;
      EncodeSigned(v);
    }
  }

  /**
    Converting a carray to a carray does not give back the same value: the
    conversion goes through `std::string`, whose terminating NUL is counted in
    the returned length, so the value gains one zero byte.
   */
  lemma CarrayGainsNul(v: Bytes)
    ensures Convert(FLD_CARRAY, v, FLD_CARRAY, |v|) == Success(Converted(v + [0], |v| + 1))
  {
    assert v[..|v|] == v;
  }

  /**
    Storing a value through a conversion to the field's own type stores what
    a plain `chg` would, for `short`, `long`, `char` and string fields.
   */
  lemma SameTypeStoresSame(t: int, mem: Bytes, len: nat)
    requires t == FLD_SHORT || t == FLD_LONG || t == FLD_CHAR || t == FLD_STRING
    requires Readable(t, mem, len)
    ensures Convert(t, mem, t, len).Success?
    ensures var c := Convert(t, mem, t, len).value; StoredValue(t, c.bytes, c.len) == StoredValue(t, mem, len)
  {
    if t == FLD_STRING {
      StringStoresSame(mem, len);
    } else {
      IntegerStoresSame(t, mem, len);
    }
  }

  lemma StringStoresSame(mem: Bytes, len: nat)
    requires 0 in mem
    ensures Convert(FLD_STRING, mem, FLD_STRING, len).Success?
    ensures var c := Convert(FLD_STRING, mem, FLD_STRING, len).value;
      StoredValue(FLD_STRING, c.bytes, c.len) == StoredValue(FLD_STRING, mem, len)
  {
    var text := mem[..CStringLength(mem)];
    assert Convert(FLD_STRING, mem, FLD_STRING, len) == Success(Converted(text + [0], |text| + 1));
    StoredString(mem, len);
    StoredTerminated(text, |text| + 1);
  }

  /** A string field stores the text up to and including the first NUL. */
  lemma StoredString(mem: Bytes, len: nat)
    requires 0 in mem
    ensures StoredValue(FLD_STRING, mem, len) == mem[..CStringLength(mem)] + [0]
  {
    var n := CStringLength(mem);
    assert mem[..n + 1] == mem[..n] + [mem[n]];
  }

  lemma StoredTerminated(text: Bytes, len: nat)
    requires 0 !in text
    ensures StoredValue(FLD_STRING, text + [0], len) == text + [0]
  {
    var mem := text + [0];
    assert mem[..|text|] == text;
    CStringLengthAt(mem, |text|);
    assert mem[..|text| + 1] == mem;
  }

  lemma IntegerStoresSame(t: int, mem: Bytes, len: nat)
    requires t == FLD_SHORT || t == FLD_LONG || t == FLD_CHAR
    requires |mem| >= SizeOf(t)
    ensures Convert(t, mem, t, len).Success?
    ensures var c := Convert(t, mem, t, len).value; StoredValue(t, c.bytes, c.len) == StoredValue(t, mem, len)
  {
    var w := SizeOf(t);
    if t == FLD_SHORT {
      assert Convert(t, mem, t, len) == FromInteger(t, Signed(mem[..w]));
    } else if t == FLD_LONG {
      assert Convert(t, mem, t, len) == FromInteger(t, Signed(mem[..w]));
    } else {
      assert Convert(t, mem, t, len) == FromInteger(t, Signed(mem[..w]));
    }
    var c := Convert(t, mem, t, len).value;
    EncodeSigned(mem[..w]);
    assert c.bytes == mem[..w] && c.len == w;
    assert c.bytes[..w] == c.bytes;
  }

  /**
    `CFchg32`: the guards, then the caller's value of type `fromtype` is
    converted to the field's type (a null value is `FEINVAL`, an unsupported
    pair `FEBADOP`) and stored with `chg` at occurrence `oc`.
   */
  method CFchg32(area: ConversionArea, fbfr: Fbfr32?, id: FieldId, oc: nat, value: Option<Bytes>, len: nat, fromtype: int)
    returns (r: Result<Unit, Error>)
    requires Usable(fbfr)
    requires value.Some? ==> Readable(fromtype, value.value, len)
    modifies area, fbfr
    ensures Usable(fbfr)
    ensures fbfr != null ==> fbfr.size == old(fbfr.size) && fbfr.addr == old(fbfr.addr)
    ensures Guard(fbfr, id).Some? ==> r == Failure(Guard(fbfr, id).value)
    ensures Guard(fbfr, id).None? && value.None? ==> r == Failure(FEINVAL)
    ensures Guard(fbfr, id).None? && value.Some? ==>
      match Convert(Fldtype32(id), value.value, fromtype, len)
      case Failure(e) => r == Failure(e)
      case Success(c) =>
        area.toval == c.bytes
        && ChgOutcome(old(fbfr.entries), fbfr.entries, fbfr.size, id, oc, StoredValue(Fldtype32(id), c.bytes, c.len), r)
    ensures r.Failure? && fbfr != null ==> fbfr.entries == old(fbfr.entries)
  {
    if Guard(fbfr, id).Some? {
      return Failure(Guard(fbfr, id).value);
    }
    var flen;
    r, flen := area.Ftypcvt32(Some(0), Fldtype32(id), value, fromtype, len);
    if r.Failure? {
      return r;
    }
    r := fbfr.Chg(id, oc, area.toval, flen.value);
  }

  /**
    `CFadd32`: like `CFchg32` at the current occurrence count, so a converted
    value is always appended.
   */
  method CFadd32(area: ConversionArea, fbfr: Fbfr32?, id: FieldId, value: Option<Bytes>, len: nat, fromtype: int)
    returns (r: Result<Unit, Error>)
    requires Usable(fbfr)
    requires value.Some? ==> Readable(fromtype, value.value, len)
    modifies area, fbfr
    ensures Usable(fbfr)
    ensures fbfr != null ==> fbfr.size == old(fbfr.size) && fbfr.addr == old(fbfr.addr)
    ensures Guard(fbfr, id).Some? ==> r == Failure(Guard(fbfr, id).value)
    ensures Guard(fbfr, id).None? && value.None? ==> r == Failure(FEINVAL)
    ensures Guard(fbfr, id).None? && value.Some? ==>
      match Convert(Fldtype32(id), value.value, fromtype, len)
      case Failure(e) => r == Failure(e)
      case Success(c) =>
        area.toval == c.bytes
        && ChgOutcome(old(fbfr.entries), fbfr.entries, fbfr.size, id, old(Count(fbfr.entries, id)),
                      StoredValue(Fldtype32(id), c.bytes, c.len), r)
    ensures r.Failure? && fbfr != null ==> fbfr.entries == old(fbfr.entries)
    ensures r != Failure(FNOTPRES)
  {
    if Guard(fbfr, id).Some? {
      return Failure(Guard(fbfr, id).value);
    }
    var flen;
    r, flen := area.Ftypcvt32(Some(0), Fldtype32(id), value, fromtype, len);
    if r.Failure? {
      return r;
    }
    var oc := Count(fbfr.entries, id);
    r := fbfr.Chg(id, oc, area.toval, flen.value);
  }

  /**
    `CFfindocc32`: the guards, then the caller's value is converted to the
    field's type and searched for as `Ffindocc32` searches.
   */
  method CFfindocc32(area: ConversionArea, fbfr: Fbfr32?, id: FieldId, value: Option<Bytes>, len: nat, fromtype: int)
    returns (r: Result<nat, Error>)
    requires value.Some? ==> Readable(fromtype, value.value, len)
    modifies area
    ensures Guard(fbfr, id).Some? ==> r == Failure(Guard(fbfr, id).value)
    ensures Guard(fbfr, id).None? && value.None? ==> r == Failure(FEINVAL)
    ensures Guard(fbfr, id).None? && value.Some? ==>
      match Convert(Fldtype32(id), value.value, fromtype, len)
      case Failure(e) => r == Failure(e)
      case Success(c) => area.toval == c.bytes && r == Ffindocc32(fbfr, id, c.bytes, c.len)
  {
    if Guard(fbfr, id).Some? {
      return Failure(Guard(fbfr, id).value);
    }
    var cr, flen := area.Ftypcvt32(Some(0), Fldtype32(id), value, fromtype, len);
    if cr.Failure? {
      return Failure(cr.error);
    }
    return Ffindocc32(fbfr, id, area.toval, flen.value);
  }

  /**
    `CFfind32`: the converted value is left in the conversion area, where the
    returned pointer points. `len` is the caller's `*len`: `find` sets it to
    the stored length and a successful conversion to the converted length.
   */
  method CFfind32(area: ConversionArea, fbfr: Fbfr32?, id: FieldId, oc: nat, len: nat, totype: int)
    returns (r: Result<Unit, Error>, len': nat)
    requires Usable(fbfr)
    modifies area
    ensures r.Failure? <==> Fetched(fbfr, id, oc, totype).Failure?
    ensures r.Failure? ==> r.error == Fetched(fbfr, id, oc, totype).error && area.toval == old(area.toval)
    ensures r.Failure? ==> len' == if Ffind32(fbfr, id, oc).Success? then |Ffind32(fbfr, id, oc).value| else len
    ensures r.Success? ==>
      area.toval == Fetched(fbfr, id, oc, totype).value.bytes && len' == Fetched(fbfr, id, oc, totype).value.len
  {
    match Ffind32(fbfr, id, oc)
    case Failure(e) =>
      return Failure(e), len;
    case Success(v) =>
      FoundReadable(fbfr, id, oc);
      var tolen;
      r, tolen := area.Ftypcvt32(Some(|v|), totype, Some(v), Fldtype32(id), |v|);
      len' := tolen.value;
  }

  /**
    `CFget32`: copies the converted value into `buf`. `len` is the caller's
    length pointer (None for null); a nonzero `*len` bounds the copy, and a
    converted value longer than it is `FNOSPACE` with nothing copied. The
    caller's `*len` receives the converted length once the conversion is done.
   */
  method CFget32(area: ConversionArea, fbfr: Fbfr32?, id: FieldId, oc: nat, buf: array<Byte>, len: Option<nat>, totype: int)
    returns (r: Result<Unit, Error>, len': Option<nat>)
    requires Usable(fbfr)
    requires var rlen := if len.Some? then len.value else 0;
      var f := Fetched(fbfr, id, oc, totype);
      f.Success? && (rlen == 0 || f.value.len <= rlen) ==> f.value.len <= buf.Length
    modifies area, buf
    ensures len.None? ==> len' == None
    ensures Fetched(fbfr, id, oc, totype).Failure? ==>
      r == Failure(Fetched(fbfr, id, oc, totype).error) && buf[..] == old(buf[..])
      && (len.Some? ==> len' == if Ffind32(fbfr, id, oc).Success? then Some(|Ffind32(fbfr, id, oc).value|) else len)
    ensures Fetched(fbfr, id, oc, totype).Success? ==>
      var c := Fetched(fbfr, id, oc, totype).value;
      var rlen := if len.Some? then len.value else 0;
      area.toval == c.bytes
      && (len.Some? ==> len' == Some(c.len))
      && (r.Failure? <==> rlen != 0 && c.len > rlen)
      && (r.Failure? ==> r.error == FNOSPACE && buf[..] == old(buf[..]))
      && (r.Success? ==> buf[..c.len] == c.bytes && buf[c.len..] == old(buf[c.len..]))
  {
    ghost var f := Fetched(fbfr, id, oc, totype);
    var rlen := if len.Some? then len.value else 0;
    var flen;
    r, flen := CFfind32(area, fbfr, id, oc, rlen, totype);
    len' := if len.Some? then Some(flen) else None;
    if r.Failure? {
      return;
    }
    assert area.toval == f.value.bytes && flen == f.value.len == |f.value.bytes|;
    if rlen != 0 && flen > rlen {
      return Failure(FNOSPACE), len';
    }
    CopyPrefix(buf, area.toval);
  }

  /** `Ffinds32`: `CFfind32` to a string. */
  method Ffinds32(area: ConversionArea, fbfr: Fbfr32?, id: FieldId, oc: nat) returns (r: Result<Unit, Error>)
    requires Usable(fbfr)
    modifies area
    ensures r.Failure? <==> Fetched(fbfr, id, oc, FLD_STRING).Failure?
    ensures r.Failure? ==> r.error == Fetched(fbfr, id, oc, FLD_STRING).error
    ensures r.Success? ==> area.toval == Fetched(fbfr, id, oc, FLD_STRING).value.bytes
  {
    var len;
    r, len := CFfind32(area, fbfr, id, oc, 0, FLD_STRING);
  }

  /** `Fgets32`: `CFget32` to a string with no length bound. */
  method Fgets32(area: ConversionArea, fbfr: Fbfr32?, id: FieldId, oc: nat, buf: array<Byte>) returns (r: Result<Unit, Error>)
    requires Usable(fbfr)
    requires Fetched(fbfr, id, oc, FLD_STRING).Success? ==> Fetched(fbfr, id, oc, FLD_STRING).value.len <= buf.Length
    modifies area, buf
    ensures r.Failure? <==> Fetched(fbfr, id, oc, FLD_STRING).Failure?
    ensures r.Failure? ==> r.error == Fetched(fbfr, id, oc, FLD_STRING).error && buf[..] == old(buf[..])
    ensures r.Success? ==>
      var c := Fetched(fbfr, id, oc, FLD_STRING).value;
      buf[..c.len] == c.bytes && buf[c.len..] == old(buf[c.len..])
  {
    var len;
    r, len := CFget32(area, fbfr, id, oc, buf, None, FLD_STRING);
  }
}
