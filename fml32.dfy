/**
  The FML32 C API (`src/fml32.cpp`): each entry point runs the buffer guard
  and, for field operations, the field-id guard, and only then hands the call
  to the buffer engine. Errors are returned as values instead of the C
  sentinel plus the thread-local `Ferror32`.
 */
module Fml32 {
  import opened Wrappers
  import opened FmlErrors
  import opened FieldIds
  import opened Entries
  import opened Sizing
  import opened Fbfr

  /** `FBFR32_CHECK`: a null buffer, or one not on an 8-byte boundary, is `FNOTFLD`. */
  function BufferCheck(fbfr: Fbfr32?): (r: Option<Error>)
    reads fbfr
    ensures r.None? <==> fbfr != null && fbfr.addr % 8 == 0
    ensures r.Some? ==> r.value == FNOTFLD
  {
    if fbfr == null then Some(FNOTFLD)
    else if fbfr.addr % 8 != 0 then Some(FNOTFLD)
    else None
  }

  /**
    The guards of a field operation in the order they run: the buffer first,
    then the type tag of the id, then `BADFLDID`.
   */
  function Guard(fbfr: Fbfr32?, id: FieldId): (r: Option<Error>)
    reads fbfr
    ensures r.None? <==> fbfr != null && fbfr.addr % 8 == 0 && ValidType(Fldtype32(id)) && id != BADFLDID
    ensures fbfr == null ==> r == Some(FNOTFLD)
    ensures BufferCheck(fbfr).None? && !ValidType(Fldtype32(id)) ==> r == Some(FTYPERR)
    ensures BufferCheck(fbfr).None? && ValidType(Fldtype32(id)) && id == BADFLDID ==> r == Some(FBADFLD)
  {
    if BufferCheck(fbfr).Some? then BufferCheck(fbfr) else CheckFieldId(id)
  }

  /** A buffer argument the engine may be handed: null, or a valid buffer. */
  ghost predicate Usable(fbfr: Fbfr32?)
    reads fbfr
  {
    fbfr != null ==> fbfr.Valid()
  }

  /**
    `Falloc32`: `block` is the address `malloc` returns for `Fneeded32(F, V)`
    bytes, or None when it returns null. An allocated block is initialised as
    an empty buffer of that size; a null one is handed to `Finit32` all the
    same, whose buffer guard leaves `FNOTFLD` as the error.
   */
  method Falloc32(F: nat, V: nat, block: Option<nat>) returns (fbfr: Fbfr32?, err: Option<Error>)
    requires block.Some? ==> block.value % 8 == 0
    ensures block.None? <==> fbfr == null
    ensures err == BufferCheck(fbfr)
    ensures block.None? ==> err == Some(FNOTFLD)
    ensures fbfr != null ==> fresh(fbfr) && fbfr.Valid() && fbfr.addr == block.value
    ensures fbfr != null ==> fbfr.size == Needed(F, V) && fbfr.entries == []
  {
    if block.None? {
      return null, Some(FNOTFLD);
    }
    fbfr := new Fbfr32(block.value, Needed(F, V));
    err := None;
  }

  /**
    `Finit32`: after the buffer guard, a length below the size of an empty
    buffer is `FNOSPACE` and leaves the buffer as it was; otherwise the buffer
    is emptied with capacity `buflen`.
   */
  method Finit32(fbfr: Fbfr32?, buflen: nat) returns (r: Result<Unit, Error>)
    requires Usable(fbfr)
    modifies fbfr
    ensures Usable(fbfr)
    ensures BufferCheck(fbfr).Some? ==> r == Failure(FNOTFLD)
    ensures BufferCheck(fbfr).None? ==> (r.Failure? <==> buflen < Needed(0, 0))
    ensures r.Failure? && fbfr != null ==> r.error in {FNOTFLD, FNOSPACE} && unchanged(fbfr)
    ensures r.Success? ==> fbfr != null && fbfr.size == buflen && fbfr.entries == [] && fbfr.addr == old(fbfr.addr)
  {
    if BufferCheck(fbfr).Some? {
      return Failure(FNOTFLD);
    }
    if buflen < Needed(0, 0) {
      return Failure(FNOSPACE);
    }
    fbfr.Init(buflen);
    return Success(Unit);
  }

  /**
    `Frealloc32`: after the buffer guard, `F` or `V` of 0 is `FEINVAL`; a new
    size `Fneeded32(F, V)` below what the buffer uses is `FNOSPACE`, so live
    fields are never cut off. Otherwise the buffer moves to `block`, the address
    `realloc` returns, with the new size and the same fields.
   */
  method Frealloc32(fbfr: Fbfr32?, F: nat, V: nat, block: nat) returns (r: Result<Fbfr32, Error>)
    requires Usable(fbfr)
    modifies fbfr
    ensures Usable(fbfr)
    ensures old(BufferCheck(fbfr)).Some? ==> r == Failure(FNOTFLD)
    ensures old(BufferCheck(fbfr)).None? && (F == 0 || V == 0) ==> r == Failure(FEINVAL)
    ensures old(BufferCheck(fbfr)).None? && F != 0 && V != 0 ==> (r == Failure(FNOSPACE) <==> Needed(F, V) < old(Used(fbfr.entries)))
    ensures r.Failure? && fbfr != null ==> unchanged(fbfr)
    ensures r.Success? ==> r.value == fbfr && fbfr.size == Needed(F, V) && fbfr.entries == old(fbfr.entries) && fbfr.addr == block
  {
    if BufferCheck(fbfr).Some? {
      return Failure(FNOTFLD);
    }
    if F == 0 || V == 0 {
      return Failure(FEINVAL);
    }
    var buflen := Needed(F, V);
    if buflen < Used(fbfr.entries) {
      return Failure(FNOSPACE);
    }
    fbfr.addr := block;
    fbfr.Reinit(buflen);
    return Success(fbfr);
  }

  /** `Ffree32`: the buffer guard; the release of the memory is not modelled. */
  function Ffree32(fbfr: Fbfr32?): (r: Result<Unit, Error>)
    reads fbfr
    ensures r.Success? <==> fbfr != null && fbfr.addr % 8 == 0
  {
    match BufferCheck(fbfr)
    case Some(e) => Failure(e)
    case None => Success(Unit)
  }

  /** `Fsizeof32`: the capacity. */
  function Fsizeof32(fbfr: Fbfr32?): (r: Result<nat, Error>)
    reads fbfr
    ensures r.Failure? <==> BufferCheck(fbfr).Some?
  {
    match BufferCheck(fbfr)
    case Some(e) => Failure(e)
    case None => Success(fbfr.size)
  }

  /** `Fused32`: the bytes in use, the empty-buffer size included. */
  function Fused32(fbfr: Fbfr32?): (r: Result<nat, Error>)
    reads fbfr
    ensures r.Failure? <==> BufferCheck(fbfr).Some?
    ensures r.Success? ==> r.value >= Needed(0, 0)
  {
    match BufferCheck(fbfr)
    case Some(e) => Failure(e)
    case None => Success(Used(fbfr.entries))
  }

  /** `Funused32`: the bytes still free. */
  function Funused32(fbfr: Fbfr32?): (r: Result<nat, Error>)
    requires Usable(fbfr)
    reads fbfr
    ensures r.Failure? <==> BufferCheck(fbfr).Some?
    ensures r.Success? ==> r.value <= fbfr.size
  {
    match BufferCheck(fbfr)
    case Some(e) => Failure(e)
    case None => Success(fbfr.size - Used(fbfr.entries))
  }

  /** Used and unused bytes always add up to the capacity. */
  lemma UsedPlusUnused(fbfr: Fbfr32)
    requires fbfr.Valid() && fbfr.addr % 8 == 0
    ensures Fused32(fbfr).Success? && Funused32(fbfr).Success? && Fsizeof32(fbfr).Success?
    ensures Fused32(fbfr).value + Funused32(fbfr).value == Fsizeof32(fbfr).value
  {
  }

  /**
    `Findex32`, and likewise `Fidxused32`, `Funindex32` and `Frstrindex32`:
    buffers carry no index, so after the buffer guard the answer is 0.
   */
  function Findex32(fbfr: Fbfr32?): (r: Result<int, Error>)
    reads fbfr
    ensures r.Failure? <==> BufferCheck(fbfr).Some?
    ensures r.Success? ==> r.value == 0
  {
    match BufferCheck(fbfr)
    case Some(e) => Failure(e)
    case None => Success(0)
  }

  /**
    `Fchg32`: the guards, then `chg` of the value in `mem` at occurrence `oc`.
    A failed guard leaves the buffer as it was.
   */
  method Fchg32(fbfr: Fbfr32?, id: FieldId, oc: nat, mem: Bytes, len: nat) returns (r: Result<Unit, Error>)
    requires Usable(fbfr)
    requires Guard(fbfr, id).None? ==> Readable(Fldtype32(id), mem, len)
    modifies fbfr
    ensures Usable(fbfr)
    ensures Guard(fbfr, id).Some? ==> r == Failure(Guard(fbfr, id).value)
    ensures Guard(fbfr, id).Some? && fbfr != null ==> unchanged(fbfr)
    ensures Guard(fbfr, id).None? ==>
      fbfr.size == old(fbfr.size) && fbfr.addr == old(fbfr.addr)
      && ChgOutcome(old(fbfr.entries), fbfr.entries, fbfr.size, id, oc, StoredValue(Fldtype32(id), mem, len), r)
  {
    if Guard(fbfr, id).Some? {
      return Failure(Guard(fbfr, id).value);
    }
    r := fbfr.Chg(id, oc, mem, len);
  }

  /**
    `Fadd32`: `chg` at the current occurrence count, so the value is always
    appended as the new last occurrence and `FNOTPRES` cannot happen.
   */
  method Fadd32(fbfr: Fbfr32?, id: FieldId, mem: Bytes, len: nat) returns (r: Result<Unit, Error>)
    requires Usable(fbfr)
    requires Guard(fbfr, id).None? ==> Readable(Fldtype32(id), mem, len)
    modifies fbfr
    ensures Usable(fbfr)
    ensures Guard(fbfr, id).Some? ==> r == Failure(Guard(fbfr, id).value)
    ensures Guard(fbfr, id).Some? && fbfr != null ==> unchanged(fbfr)
    ensures Guard(fbfr, id).None? ==>
      fbfr.size == old(fbfr.size) && fbfr.addr == old(fbfr.addr)
      && ChgOutcome(old(fbfr.entries), fbfr.entries, fbfr.size, id, old(Count(fbfr.entries, id)),
                    StoredValue(Fldtype32(id), mem, len), r)
    ensures r != Failure(FNOTPRES)
    ensures r.Success? ==>
      Values(fbfr.entries, id) == old(Values(fbfr.entries, id)) + [StoredValue(Fldtype32(id), mem, len)]
  {
    if Guard(fbfr, id).Some? {
      return Failure(Guard(fbfr, id).value);
    }
    var oc := Count(fbfr.entries, id);
    r := fbfr.Chg(id, oc, mem, len);
  }

  /** `Ffind32`: the value of occurrence `oc` of `id`; an absent occurrence is `FNOTPRES`. */
  function Ffind32(fbfr: Fbfr32?, id: FieldId, oc: nat): (r: Result<Bytes, Error>)
    reads fbfr
    ensures Guard(fbfr, id).Some? ==> r == Failure(Guard(fbfr, id).value)
    ensures Guard(fbfr, id).None? ==> (r.Success? <==> oc < |Values(fbfr.entries, id)|)
    ensures Guard(fbfr, id).None? && r.Failure? ==> r.error == FNOTPRES
    ensures r.Success? ==> r.value == Values(fbfr.entries, id)[oc]
  {
    if Guard(fbfr, id).Some? then Failure(Guard(fbfr, id).value)
    else if oc >= Count(fbfr.entries, id) then Failure(FNOTPRES)
    else Success(fbfr.entries[Position(fbfr.entries, id, oc)].value)
  }

  /** `Ffindlast32`: the last occurrence of `id` and its value. */
  function Ffindlast32(fbfr: Fbfr32?, id: FieldId): (r: Result<(nat, Bytes), Error>)
    reads fbfr
    ensures Guard(fbfr, id).Some? ==> r == Failure(Guard(fbfr, id).value)
    ensures Guard(fbfr, id).None? ==> (r.Failure? <==> Values(fbfr.entries, id) == [])
    ensures Guard(fbfr, id).None? && r.Failure? ==> r.error == FNOTPRES
    ensures r.Success? ==>
      r.value.0 + 1 == |Values(fbfr.entries, id)| && r.value.1 == Values(fbfr.entries, id)[r.value.0]
  {
    if Guard(fbfr, id).Some? then Failure(Guard(fbfr, id).value)
    else if Count(fbfr.entries, id) == 0 then Failure(FNOTPRES)
    else
      var oc := Count(fbfr.entries, id) - 1;
      Success((oc, fbfr.entries[Position(fbfr.entries, id, oc)].value))
  }

  /** `Fpres32`: whether occurrence `oc` of `id` exists. */
  function Fpres32(fbfr: Fbfr32?, id: FieldId, oc: nat): (r: Result<bool, Error>)
    reads fbfr
    ensures r.Failure? <==> Guard(fbfr, id).Some?
    ensures r.Success? ==> (r.value <==> Ffind32(fbfr, id, oc).Success?)
    ensures r.Success? ==>
      (r.value <==> exists i :: 0 <= i < |fbfr.entries| && fbfr.entries[i].id == id && Occurrence(fbfr.entries, i) == oc)
  {
    if Guard(fbfr, id).Some? then Failure(Guard(fbfr, id).value)
    else
      OccurrenceExists(fbfr.entries, id, oc);
      Success(oc < Count(fbfr.entries, id))
  }

  /** An occurrence number is below the count exactly when some entry carries it. */
  lemma OccurrenceExists(s: seq<Entry>, id: FieldId, oc: nat)
    ensures oc < Count(s, id) <==> exists i :: 0 <= i < |s| && s[i].id == id && Occurrence(s, i) == oc
  {
    if oc < Count(s, id) {
      var i := Position(s, id, oc);
    }
    if i :| 0 <= i < |s| && s[i].id == id && Occurrence(s, i) == oc {
      ValueAtOccurrence(s, i);
    }
  }

  /** `Foccur32`: the number of occurrences of `id`. */
  function Foccur32(fbfr: Fbfr32?, id: FieldId): (r: Result<nat, Error>)
    reads fbfr
    ensures r.Failure? <==> Guard(fbfr, id).Some?
    ensures r.Success? ==> r.value == |Values(fbfr.entries, id)|
    ensures r.Success? ==> (r.value == 0 <==> forall e | e in fbfr.entries :: e.id != id)
  {
    if Guard(fbfr, id).Some? then Failure(Guard(fbfr, id).value)
    else
      OccurrenceCountZero(fbfr.entries, id);
      Success(Count(fbfr.entries, id))
  }

  /** `Flen32`: the length of occurrence `oc` of `id`. */
  function Flen32(fbfr: Fbfr32?, id: FieldId, oc: nat): (r: Result<nat, Error>)
    requires Usable(fbfr)
    reads fbfr
    ensures r.Failure? <==> Ffind32(fbfr, id, oc).Failure?
    ensures r.Failure? ==> r.error == Ffind32(fbfr, id, oc).error
    ensures r.Success? ==> r.value == |Ffind32(fbfr, id, oc).value|
    ensures r.Success? && IsFixed(Fldtype32(id)) ==> r.value == SizeOf(Fldtype32(id))
  {
    match Ffind32(fbfr, id, oc)
    case Failure(e) => Failure(e)
    case Success(v) =>
      var i := Position(fbfr.entries, id, oc);
      assert fbfr.entries[i] in fbfr.entries;
      Success(|v|)
  }

  /** `Fdel32`: the guards, then `del`. */
  method Fdel32(fbfr: Fbfr32?, id: FieldId, oc: nat) returns (r: Result<Unit, Error>)
    requires Usable(fbfr)
    modifies fbfr
    ensures Usable(fbfr)
    ensures Guard(fbfr, id).Some? ==> r == Failure(Guard(fbfr, id).value)
    ensures Guard(fbfr, id).Some? && fbfr != null ==> unchanged(fbfr)
    ensures Guard(fbfr, id).None? ==>
      fbfr.size == old(fbfr.size) && DelOutcome(old(fbfr.entries), fbfr.entries, id, oc, r)
  {
    if Guard(fbfr, id).Some? {
      return Failure(Guard(fbfr, id).value);
    }
    r := fbfr.Del(id, oc);
  }

  /** `Fdelall32`: the guards, then `delall`. */
  method Fdelall32(fbfr: Fbfr32?, id: FieldId) returns (r: Result<Unit, Error>)
    requires Usable(fbfr)
    modifies fbfr
    ensures Usable(fbfr)
    ensures Guard(fbfr, id).Some? ==> r == Failure(Guard(fbfr, id).value)
    ensures Guard(fbfr, id).Some? && fbfr != null ==> unchanged(fbfr)
    ensures Guard(fbfr, id).None? ==>
      fbfr.size == old(fbfr.size) && DelallOutcome(old(fbfr.entries), fbfr.entries, id, r)
  {
    if Guard(fbfr, id).Some? {
      return Failure(Guard(fbfr, id).value);
    }
    r := fbfr.Delall(id);
  }

  /**
    `Fget32`: copies occurrence `oc` of `id` into `loc`, whose usable length
    the caller passes in `maxlen`. A value longer than `maxlen` is `FNOSPACE`
    and copies nothing; the returned length is then the value's true length.
   */
  method Fget32(fbfr: Fbfr32?, id: FieldId, oc: nat, loc: array<Byte>, maxlen: nat)
    returns (r: Result<Unit, Error>, len: nat)
    requires maxlen <= loc.Length
    modifies loc
    ensures Ffind32(fbfr, id, oc).Failure? ==>
      r == Failure(Ffind32(fbfr, id, oc).error) && len == maxlen && loc[..] == old(loc[..])
    ensures Ffind32(fbfr, id, oc).Success? ==>
      var v := Ffind32(fbfr, id, oc).value;
      len == |v|
      && (r.Failure? <==> maxlen < |v|)
      && (r.Failure? ==> r.error == FNOSPACE && loc[..] == old(loc[..]))
      && (r.Success? ==> loc[..|v|] == v && loc[|v|..] == old(loc[|v|..]))
  {
    match Ffind32(fbfr, id, oc)
    case Failure(e) =>
      return Failure(e), maxlen;
    case Success(v) =>
      if maxlen < |v| {
        return Failure(FNOSPACE), |v|;
      }
      forall i | 0 <= i < |v| {
        loc[i] := v[i];
      }
      return Success(Unit), |v|;
  }

  /**
    `Fgetalloc32`: a fresh copy of occurrence `oc` of `id`, with `extralen`
    more bytes allocated after it; the returned length is the value's.
   */
  method Fgetalloc32(fbfr: Fbfr32?, id: FieldId, oc: nat, extralen: nat)
    returns (r: Result<array<Byte>, Error>, len: nat)
    ensures Ffind32(fbfr, id, oc).Failure? ==> r == Failure(Ffind32(fbfr, id, oc).error) && len == extralen
    ensures Ffind32(fbfr, id, oc).Success? ==>
      var v := Ffind32(fbfr, id, oc).value;
      r.Success? && fresh(r.value) && r.value.Length == |v| + extralen && r.value[..|v|] == v && len == |v|
  {
    match Ffind32(fbfr, id, oc)
    case Failure(e) =>
      return Failure(e), extralen;
    case Success(v) =>
      var a := new Byte[|v| + extralen](i => if 0 <= i < |v| then v[i] else 0);
      return Success(a), |v|;
  }

  /** Without a next entry, every entry is at or before the cursor. */
  lemma NothingAfter(s: seq<Entry>, id: FieldId, oc: nat)
    requires Sorted(s) && NoBadIds(s) && NextPosition(s, id, oc).None?
    ensures forall j | 0 <= j < |s| :: s[j].id < id || (s[j].id == id && Occurrence(s, j) <= oc)
  {
    NextIsSuccessor(s, id, oc);
    forall j | 0 <= j < |s|
      ensures s[j].id < id || (s[j].id == id && Occurrence(s, j) <= oc)
    {
      assert !CursorBefore(id, oc, s[j].id, Occurrence(s, j));
    }
  }

  /** No entry lies strictly between the cursor and the next entry. */
  lemma NothingBetween(s: seq<Entry>, id: FieldId, oc: nat, i: nat)
    requires Sorted(s) && NoBadIds(s) && NextPosition(s, id, oc) == Some(i)
    ensures i < |s|
    ensures forall j | 0 <= j < |s| ::
      !(CursorBefore(id, oc, s[j].id, Occurrence(s, j)) && CursorBefore(s[j].id, Occurrence(s, j), s[i].id, Occurrence(s, i)))
  {
    NextIsSuccessor(s, id, oc);
    forall j | 0 <= j < |s|
      ensures !(CursorBefore(id, oc, s[j].id, Occurrence(s, j)) && CursorBefore(s[j].id, Occurrence(s, j), s[i].id, Occurrence(s, i)))
    {
      if i < j {
        CursorsIncrease(s, i, j);
      }
    }
  }

  /** Copies `src` to the start of `buf`, leaving the rest of `buf` as it was. */
  method CopyPrefix(buf: array<Byte>, src: Bytes)
    requires |src| <= buf.Length
    modifies buf
    ensures buf[..|src|] == src && buf[|src|..] == old(buf[|src|..])
  {
    forall i | 0 <= i < |src| {
      buf[i] := src[i];
    }
  }

  /**
    `Fnext32`: moves the cursor (`id`, `oc`) to the next entry in id order and
    reports its id, occurrence and true length. The value is copied into
    `value` only when it fits the caller's `len`; a short `len` is not an error.
    At the end of the buffer the answer is false and the cursor stays.
    Only the buffer guard runs: `id` may be `BADFLDID`, the start.
   */
  method Fnext32(fbfr: Fbfr32?, id: FieldId, oc: nat, value: array<Byte>, len: nat)
    returns (r: Result<bool, Error>, id': FieldId, oc': nat, len': nat)
    requires Usable(fbfr)
    requires len <= value.Length
    modifies value
    ensures BufferCheck(fbfr).Some? ==> r == Failure(FNOTFLD) && value[..] == old(value[..])
    ensures BufferCheck(fbfr).None? ==> r.Success?
    ensures r == Success(false) ==>
      id' == id && oc' == oc && len' == len && value[..] == old(value[..])
      && forall j | 0 <= j < |fbfr.entries| ::
           fbfr.entries[j].id < id || (fbfr.entries[j].id == id && Occurrence(fbfr.entries, j) <= oc)
    ensures r == Success(true) ==>
      oc' < |Values(fbfr.entries, id')|
      && CursorBefore(id, oc, id', oc')
      && len' == |Values(fbfr.entries, id')[oc']|
      && (len' <= len ==> value[..len'] == Values(fbfr.entries, id')[oc'] && value[len'..] == old(value[len'..]))
      && (len' > len ==> value[..] == old(value[..]))
    ensures r == Success(true) ==>
      forall j | 0 <= j < |fbfr.entries| ::
        !(CursorBefore(id, oc, fbfr.entries[j].id, Occurrence(fbfr.entries, j))
          && CursorBefore(fbfr.entries[j].id, Occurrence(fbfr.entries, j), id', oc'))
  {
    if BufferCheck(fbfr).Some? {
      return Failure(FNOTFLD), id, oc, len;
    }
    var s := fbfr.entries;
    NextIsSuccessor(s, id, oc);
    match NextPosition(s, id, oc)
    case None =>
      NothingAfter(s, id, oc);
      return Success(false), id, oc, len;
    case Some(i) =>
      ValueAtOccurrence(s, i);
      NothingBetween(s, id, oc, i);
      var v := s[i].value;
      if |v| <= len {
        CopyPrefix(value, v);
      }
      return Success(true), s[i].id, Occurrence(s, i), |v|;
  }

  /** The position of the first entry equal to `e`. */
  function IndexOf(s: seq<Entry>, e: Entry): (i: nat)
    requires e in s
    ensures i < |s| && s[i] == e
  {
    if s[0] == e then 0 else 1 + IndexOf(s[1..], e)
  }

  lemma OccurrenceCountZero(s: seq<Entry>, id: FieldId)
    ensures Count(s, id) == 0 <==> forall e | e in s :: e.id != id
  {
    if Count(s, id) == 0 {
      forall e | e in s
        ensures e.id != id
      {
        var i := IndexOf(s, e);
        ValueAtOccurrence(s, i);
      }
    } else {
      var i := Position(s, id, 0);
      assert s[i] in s;
    }
  }

  /**
    `Fcpy32`: both buffer guards, destination first, then `cpy`; a destination
    smaller than what the source uses is `FNOSPACE`.
   */
  method Fcpy32(dest: Fbfr32?, src: Fbfr32?) returns (r: Result<Unit, Error>)
    requires Usable(dest) && Usable(src)
    modifies dest
    ensures Usable(dest)
    ensures BufferCheck(dest).Some? ==> r == Failure(FNOTFLD)
    ensures BufferCheck(dest).None? && BufferCheck(src).Some? ==> r == Failure(FNOTFLD)
    ensures dest != null ==> dest.addr == old(dest.addr) && dest.size == old(dest.size)
    ensures r.Failure? && dest != null ==> dest.entries == old(dest.entries)
    ensures BufferCheck(dest).None? && BufferCheck(src).None? ==>
      ReplaceAllOutcome(old(dest.entries), dest.entries, dest.size, old(src.entries), r)
      && (r.Success? ==> dest.entries == old(src.entries))
  {
    if BufferCheck(dest).Some? || BufferCheck(src).Some? {
      return Failure(FNOTFLD);
    }
    r := dest.Cpy(src);
  }

  /** `Fdelete32`: after the buffer guard, every field of the `BADFLDID`-terminated list goes. */
  method Fdelete32(fbfr: Fbfr32?, ids: seq<FieldId>) returns (r: Result<Unit, Error>)
    requires Usable(fbfr) && BADFLDID in ids
    modifies fbfr
    ensures Usable(fbfr)
    ensures r.Failure? <==> BufferCheck(fbfr).Some?
    ensures r.Failure? ==> r.error == FNOTFLD && (fbfr != null ==> unchanged(fbfr))
    ensures r.Success? ==>
      fbfr.size == old(fbfr.size)
      && forall x :: Values(fbfr.entries, x) == if x in ListIds(ids) then [] else old(Values(fbfr.entries, x))
  {
    if BufferCheck(fbfr).Some? {
      return Failure(FNOTFLD);
    }
    fbfr.Xdelete(ids);
    return Success(Unit);
  }

  /** `Fproj32`: after the buffer guard, only the fields of the list stay. */
  method Fproj32(fbfr: Fbfr32?, ids: seq<FieldId>) returns (r: Result<Unit, Error>)
    requires Usable(fbfr) && BADFLDID in ids
    modifies fbfr
    ensures Usable(fbfr)
    ensures r.Failure? <==> BufferCheck(fbfr).Some?
    ensures r.Failure? ==> r.error == FNOTFLD && (fbfr != null ==> unchanged(fbfr))
    ensures r.Success? ==>
      fbfr.size == old(fbfr.size)
      && forall x :: Values(fbfr.entries, x) == if x in ListIds(ids) then old(Values(fbfr.entries, x)) else []
  {
    if BufferCheck(fbfr).Some? {
      return Failure(FNOTFLD);
    }
    fbfr.Proj(ids);
    return Success(Unit);
  }

  /** `Fprojcpy32`: both buffer guards, then the listed fields of `src` replace `dest`'s. */
  method Fprojcpy32(dest: Fbfr32?, src: Fbfr32?, ids: seq<FieldId>) returns (r: Result<Unit, Error>)
    requires Usable(dest) && Usable(src) && BADFLDID in ids
    modifies dest
    ensures Usable(dest)
    ensures BufferCheck(dest).Some? ==> r == Failure(FNOTFLD)
    ensures BufferCheck(dest).None? && BufferCheck(src).Some? ==> r == Failure(FNOTFLD)
    ensures dest != null ==> dest.addr == old(dest.addr) && dest.size == old(dest.size)
    ensures r.Failure? && dest != null ==> dest.entries == old(dest.entries)
    ensures BufferCheck(dest).None? && BufferCheck(src).None? ==>
      ReplaceAllOutcome(old(dest.entries), dest.entries, dest.size, old(Filter(src.entries, ListIds(ids), true)), r)
      && (r.Success? ==>
            forall x :: Values(dest.entries, x) == if x in ListIds(ids) then old(Values(src.entries, x)) else [])
  {
    if BufferCheck(dest).Some? || BufferCheck(src).Some? {
      return Failure(FNOTFLD);
    }
    r := dest.Projcpy(src, ids);
  }

  /**
    `Fconcat32`: both buffer guards, then the fields of `src` are added after
    `dest`'s own occurrences, all or nothing.
   */
  method Fconcat32(dest: Fbfr32?, src: Fbfr32?) returns (r: Result<Unit, Error>)
    requires Usable(dest) && Usable(src)
    modifies dest
    ensures Usable(dest)
    ensures BufferCheck(dest).Some? ==> r == Failure(FNOTFLD)
    ensures BufferCheck(dest).None? && BufferCheck(src).Some? ==> r == Failure(FNOTFLD)
    ensures dest != null ==> dest.addr == old(dest.addr) && dest.size == old(dest.size)
    ensures r.Failure? && dest != null ==> dest.entries == old(dest.entries)
    ensures BufferCheck(dest).None? && BufferCheck(src).None? ==>
      (r.Failure? <==> dest.size < old(Used(dest.entries) + Payload(src.entries)))
      && (r.Failure? ==> r.error == FNOSPACE)
      && (r.Success? ==> forall x :: Values(dest.entries, x) == old(Values(dest.entries, x) + Values(src.entries, x)))
  {
    if BufferCheck(dest).Some? || BufferCheck(src).Some? {
      return Failure(FNOTFLD);
    }
    r := dest.Concat(src);
  }

  /** `Fchksum32`: the checksum of the buffer's content. */
  function Fchksum32(fbfr: Fbfr32?): (r: Result<int, Error>)
    reads fbfr
    ensures r.Failure? <==> BufferCheck(fbfr).Some?
  {
    match BufferCheck(fbfr)
    case Some(e) => Failure(e)
    case None => Success(Chksum(fbfr.entries))
  }

  /**
    Buffers that hold the same values for every id have the same checksum,
    whatever order the fields were added in; in particular a copy made by
    `Fcpy32` has the checksum of its source.
   */
  lemma ChksumOfSameContent(a: Fbfr32, b: Fbfr32)
    requires a.Valid() && b.Valid() && a.addr % 8 == 0 && b.addr % 8 == 0
    requires forall x :: Values(a.entries, x) == Values(b.entries, x)
    ensures Fchksum32(a) == Fchksum32(b)
  {
    ChksumOfContent(a.entries, b.entries);
  }

  /** The regular-expression match `Ffindocc32` uses for strings; its dialect is not modelled. */
  const RegexMatch: (Bytes, Bytes) -> bool

  /**
    `Ffindocc32`: the first occurrence of `id` matching the value in `mem`.
    For a STRING field with `len` not 0 the value is a regular expression;
    otherwise an occurrence matches when its bytes equal the value as `chg`
    would store it. No match is `FNOTPRES`.
   */
  function Ffindocc32(fbfr: Fbfr32?, id: FieldId, mem: Bytes, len: nat): (r: Result<nat, Error>)
    requires Guard(fbfr, id).None? ==> Readable(Fldtype32(id), mem, len)
    reads fbfr
    ensures Guard(fbfr, id).Some? ==> r == Failure(Guard(fbfr, id).value)
    ensures r.Failure? && Guard(fbfr, id).None? ==> r.error == FNOTPRES
    ensures r.Success? ==> r.value < |Values(fbfr.entries, id)|
    ensures Guard(fbfr, id).None? && !(Fldtype32(id) == FLD_STRING && len != 0) ==>
      var v := StoredValue(Fldtype32(id), mem, len);
      var vs := Values(fbfr.entries, id);
      && (r.Failure? <==> v !in vs)
      && (r.Success? ==> vs[r.value] == v && v !in vs[..r.value])
  {
    if Guard(fbfr, id).Some? then Failure(Guard(fbfr, id).value)
    else
      var t := Fldtype32(id);
      var vs := Values(fbfr.entries, id);
      var found :=
        if t == FLD_STRING && len != 0 then
          var pattern := mem[..CStringLength(mem)];
          FirstMatch(vs, v => RegexMatch(pattern, v))
        else
          var stored := StoredValue(t, mem, len);
          FirstMatch(vs, v => v == stored);
      match found
      case None => Failure(FNOTPRES)
      case Some(k) => Success(k)
  }
}
