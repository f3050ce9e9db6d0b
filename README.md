# fuxedo core, modelled in Dafny

This project models three parts of fuxedo, an implementation of the Tuxedo
ATMI and FML32 APIs:

- **The FML32 fielded buffer.**
  - `Entries`, `Sizing` and `Fbfr` model the buffer engine (`Fbfr32`), whose own source is not part of this model. Its behaviour is taken from what the C API and `tests/fml32.cpp` rely on. A buffer is a class with a fixed capacity and a sequence of (field id, value bytes) entries sorted by id, so the order is type-major. The occurrences of one id stay in the order they were added.
  - `FieldIds` and `FmlErrors` model field ids and error codes.
  - `Fml32` models the C entry points of `src/fml32.cpp`: the buffer and field-id guards, allocation and sizing, and the delegating CRUD and structural calls.
  - `TypeConversion` models `Ftypcvt32`, and `CFml32` models the converting `CF*` calls built on it.
  - `Decimal` holds `std::to_string` of integers and the leading-number parse shared by `atol` and `std::stol`.
- **`server_main` of `src/server.cpp` (`Server`).** This is the service advertisement table with its match and duplicate rules. It also covers:
  - the message-type scheduler (a counter mod 8);
  - the admin-message handler;
  - the client-side `TPEPROTO` guards;
  - the `rval` mapping of `tpreturn`.
- **`src/ubb2mib.cpp` (`Ubb2mib`).** This covers the range-checked `checked_get` lookups and the expansion of UBB GROUPS and SERVERS entries into MIB server records.

Errors are returned as `Result`/`Option` values instead of the C sentinel plus `Ferror32`/`tperrno`. A failing FML32 buffer operation or server advertisement call leaves its buffer or table unchanged. A failing `ubb2mib` conversion keeps the MIB records made before the entry that failed (`Ubb2mib.ErrorSticks`, `Ubb2mib.Convert`).

The logical content of a buffer is `Values(s, id)`: the values of each id, indexed by occurrence number. `Entries.Canonical` proves that this content determines the sorted entry sequence. Every buffer operation is therefore specified by what it does to `Values`, and by how `Used` (the `Fused32` value) changes.

Three modelling decisions:
- **CARRAY conversions keep a terminating NUL.** A CARRAY source becomes a `std::string` `from`. A text target stores `from` and sets `*tolen = from.size() + 1` (src/fml32.cpp:423-425), so the length counts the string's terminating NUL. The converted value therefore gains a zero byte (`CFml32.CarrayGainsNul`).
- **Field numbers use 25 bits.** A field id is `type * 2^25 + number`, with numbers 1..2^25-1, as in the Tuxedo FML32 id layout. The header that defines the layout is not part of this model.
- **No gap filling in `chg`.** `Fchg32` at an occurrence beyond the current count is `FNOTPRES`. The engine that decides this is not part of this model, and the tests only overwrite existing occurrences or append at the count.

## Model

| member | source | states |
|---|---|---|
| FieldIds.Fmkfldid32 | tests/fml32.cpp:10-25 | An unknown type is `FTYPERR`, and a number outside 1..2^25-1 is `FBADFLD`. A made id is never `BADFLDID`, and `Fldtype32`/`Fldno32` give back the type and number. |
| FieldIds.FieldIdDecomposes | tests/fml32.cpp:10-25 | Every id is rebuilt from its type and number. |
| FieldIds.TypeMajorOrder | tests/fml32.cpp:499-570 | Id order is type-major: a smaller type sorts first whatever the numbers are, and within one type the number decides. |
| FieldIds.CheckFieldId | src/fml32.cpp:151-161 | An unknown type tag is `FTYPERR`. Only after that is `BADFLDID` `FBADFLD`. No error exactly when the type is valid and the id is not 0. |
| FieldIds.MadeIdsPassCheck | tests/fml32.cpp:10-25 | Every id `Fmkfldid32` makes passes the id guard. |
| FmlErrors.FromCode | src/fml32.cpp:30-83 | Exactly the codes 1..24 name an error, and `Code` maps each one back to its number. |
| FmlErrors.Fstrerror32 | src/fml32.cpp:30-85 | The message is non-empty exactly for the codes 1..24, and it is that error's entry of the table. |
| Decimal.ParseToDecimal | src/fml32.cpp:404-420 | Parsing the decimal text of any integer gives that integer back. |
| Decimal.ParseNeedsDigit | src/fml32.cpp:412-420 | Text that starts with neither a space, a sign nor a digit holds no number. |
| Entries.StoredValue | tests/fml32.cpp:246-281 | `chg` stores the type's width for fixed types, the string up to and including its NUL, `len` bytes of a carray, and a nested buffer as it is. The result has its field's shape. |
| Entries.StoredValueIdempotent | tests/fml32.cpp:246-281 | A stored value, read back as caller memory, stores the same bytes again. |
| Entries.Replace | tests/fml32.cpp:630-726 | Overwriting an occurrence keeps every entry's id and position. |
| Entries.ReplaceValues | tests/fml32.cpp:630-726 | Overwriting occurrence `oc` replaces exactly that value of that id, whether a string grows or shrinks. Every other id is unchanged. |
| Entries.InsertSorted | tests/fml32.cpp:499-570 | Adding an entry keeps the buffer sorted by id. |
| Entries.InsertValues | tests/fml32.cpp:412-433 | An added value becomes the last occurrence of its id. Every other id is unchanged. |
| Entries.InsertCommutes | tests/fml32.cpp:499-515 | Adding values of two different ids in either order gives the same buffer. |
| Entries.RemoveValues | tests/fml32.cpp:435-476 | Deleting occurrence `oc` removes that value, and the later occurrences move down by one. Every other id is unchanged. |
| Entries.RemoveKeepsOrder | tests/fml32.cpp:435-476 | Deleting an entry keeps the buffer sorted. |
| Entries.Filter | tests/fml32.cpp:782-856 | Exactly the entries whose id is (or is not) listed remain, drawn from the original. |
| Entries.FilterValues | tests/fml32.cpp:782-856 | A kept id keeps all its values in order, and a dropped id has none. |
| Entries.FilterSorted | tests/fml32.cpp:782-856 | Filtering keeps the buffer sorted. |
| Entries.Changed | tests/fml32.cpp:630-726 | `chg` at `oc` puts the new value at `oc` and keeps every other occurrence. It appends only at the count. |
| Entries.Concat | tests/fml32.cpp:752-780 | Concatenation keeps all entries of both buffers and keeps the result sorted. |
| Entries.ConcatValues | tests/fml32.cpp:752-780 | After concatenation each id's values are the destination's followed by the source's, so the source occurrences are numbered after the destination's. |
| Entries.Canonical | tests/fml32.cpp:178-199 | Two sorted buffers with the same values for every id are the same buffer. |
| Entries.ChksumOfContent | tests/fml32.cpp:178-199 | The checksum depends only on the logical content. |
| Entries.FirstMatch | tests/fml32.cpp:134-165 | Returns the first index whose value matches, with none matching before it, or None when nothing matches. |
| Entries.FirstAbove | tests/fml32.cpp:499-570 | Returns the position of the first entry with a larger id, every entry before it being no larger. |
| Entries.CursorsIncrease | tests/fml32.cpp:499-570 | In a sorted buffer the (id, occurrence) cursors of the entries increase with position. |
| Entries.NextIsSuccessor | tests/fml32.cpp:499-570 | `next` lands on the entry right after the cursor in (id, occurrence) order, and starts at the first entry from `BADFLDID`. At the end, no entry is after the cursor. |
| Sizing.UsedChg | tests/fml32.cpp:61-85 | `chg` grows the used size by exactly the length change of a replaced value, or by a new entry's overhead plus its length. |
| Sizing.UsedInsert | tests/fml32.cpp:61-85 | Adding an entry grows the used size by exactly that entry's size. |
| Sizing.UsedReplace | tests/fml32.cpp:630-726 | Overwriting a value changes the used size by the change in value length. |
| Sizing.UsedRemove | tests/fml32.cpp:435-476 | Deleting an occurrence frees exactly its overhead and value bytes. |
| Sizing.UsedFilter | tests/fml32.cpp:782-856 | Deleting or projecting fields never grows the used size. |
| Sizing.UsedConcat | tests/fml32.cpp:752-780 | Concatenation grows the used size by the source's payload. |
| Sizing.UsedOfContent | tests/fml32.cpp:178-244 | Buffers with the same content use the same number of bytes. |
| Fbfr.ListIds | tests/fml32.cpp:782-805 | The ids of a `BADFLDID`-terminated list: every id before the terminator, and nothing else. |
| Fbfr.Fbfr32.constructor | src/fml32.cpp:131-137 | A new buffer is empty, with the given capacity and address. |
| Fbfr.Fbfr32.Init | src/fml32.cpp:163-170 | `init` empties the buffer with the new capacity. |
| Fbfr.Fbfr32.Reinit | src/fml32.cpp:186-189 | `reinit` sets a new capacity that is no smaller than the used size, and keeps the fields. |
| Fbfr.Fbfr32.Chg | tests/fml32.cpp:246-281 | `chg` replaces or appends the value. `FNOTPRES` is an occurrence beyond the count, and `FNOSPACE` is a result over capacity; either failure leaves the buffer unchanged. Other ids are untouched, and the used size grows by exactly the computed amount. |
| Fbfr.Fbfr32.Del | tests/fml32.cpp:435-476 | `del` removes occurrence `oc` and renumbers the later ones. An absent occurrence is `FNOTPRES` with no change. |
| Fbfr.Fbfr32.FilterIds | tests/fml32.cpp:782-856 | Keeps or drops the listed ids. Every other id keeps its values. |
| Fbfr.Fbfr32.Delall | tests/fml32.cpp:478-497 | `delall` leaves no occurrence of the id. An id already absent is `FNOTPRES`. |
| Fbfr.Fbfr32.Xdelete | tests/fml32.cpp:782-804 | Exactly the listed ids lose all their values, and every other id keeps its values. |
| Fbfr.Fbfr32.Proj | tests/fml32.cpp:806-828 | Exactly the listed ids keep their values, and every other id has none. |
| Fbfr.Fbfr32.Cpy | tests/fml32.cpp:201-244 | The destination takes the source's fields. A capacity below the source's used size is `FNOSPACE` with no change. |
| Fbfr.Fbfr32.Projcpy | tests/fml32.cpp:830-856 | The destination takes exactly the listed fields of the source. When they do not fit it is `FNOSPACE`. |
| Fbfr.Fbfr32.Concat | tests/fml32.cpp:752-780 | Each id's values become the destination's followed by the source's. A result over capacity is `FNOSPACE` with nothing added. |
| Fml32.BufferCheck | src/fml32.cpp:139-149 | A null buffer, or one off an 8-byte boundary, is `FNOTFLD`, and any other buffer passes. |
| Fml32.Guard | src/fml32.cpp:139-161 | Guards run in order: the buffer first, then the type tag (`FTYPERR`), then `BADFLDID` (`FBADFLD`). |
| Fml32.Falloc32 | src/fml32.cpp:131-137 | A null block gives null with `FNOTFLD` as the error, the outcome of `Finit32(nullptr, …)`. Otherwise the result is an empty buffer of `Fneeded32(F, V)` bytes, with no error. |
| Fml32.Finit32 | src/fml32.cpp:163-170 | After the buffer guard, a length below `Fneeded32(0, 0)` is `FNOSPACE` with the buffer untouched. Otherwise the buffer is emptied with that capacity. |
| Fml32.Frealloc32 | src/fml32.cpp:172-190 | `F` or `V` of 0 is `FEINVAL`. A new size below the used size is `FNOSPACE`, so live fields are never cut off. On success the size is `Fneeded32(F, V)` and the fields are kept. |
| Fml32.Ffree32 | src/fml32.cpp:192-197 | Succeeds exactly when the buffer guard passes. |
| Fml32.Fsizeof32 | src/fml32.cpp:199-202 | Fails exactly when the buffer guard fails. |
| Fml32.Fused32 | src/fml32.cpp:204-207 | Fails exactly when the buffer guard fails. The used size is at least the empty-buffer size. |
| Fml32.Funused32 | src/fml32.cpp:209-212 | Fails exactly when the buffer guard fails. The free bytes never exceed the capacity. |
| Fml32.UsedPlusUnused | tests/fml32.cpp:61-85 | `Fused32 + Funused32 == Fsizeof32` for every valid buffer. |
| Fml32.Findex32 | src/fml32.cpp:214-232 | After the buffer guard, the answer is 0. |
| Fml32.Fchg32 | src/fml32.cpp:234-240 | A failing guard returns its error with the buffer unchanged. Otherwise the outcome of `chg` follows. |
| Fml32.Fadd32 | src/fml32.cpp:242-251 | `Fadd32` is `chg` at the current count. It never fails with `FNOTPRES`, and on success the value is the new last occurrence. |
| Fml32.Ffind32 | src/fml32.cpp:253-258 | Returns the guard's error, or `FNOTPRES` exactly when the occurrence is absent, or else the stored bytes of that occurrence. |
| Fml32.Ffindlast32 | src/fml32.cpp:259-264 | Returns the last occurrence number and its value. No occurrence is `FNOTPRES`. |
| Fml32.Fpres32 | src/fml32.cpp:265-270 | True exactly when `Ffind32` would succeed, that is, when some entry carries that occurrence. |
| Fml32.OccurrenceExists | tests/fml32.cpp:397-410 | An occurrence number is below the count exactly when some entry carries it. |
| Fml32.Foccur32 | src/fml32.cpp:272-277 | Returns the number of values of the id. It is 0 exactly when no entry has that id. |
| Fml32.OccurrenceCountZero | tests/fml32.cpp:412-433 | The count is 0 exactly when no entry has the id. |
| Fml32.Flen32 | src/fml32.cpp:279-284 | Returns the length of the value `Ffind32` returns, with the same errors. A fixed type's length is its width. |
| Fml32.Fdel32 | src/fml32.cpp:297-302 | The guards, then the outcome of `del`. |
| Fml32.Fdelall32 | src/fml32.cpp:304-309 | The guards, then the outcome of `delall`. |
| Fml32.Fget32 | tests/fml32.cpp:283-347 | Copies the value when it fits `maxlen`, leaving the rest of the caller's buffer alone. A shorter `maxlen` (0 included) is `FNOSPACE` with nothing copied, and the true length is reported. |
| Fml32.Fgetalloc32 | src/fml32.cpp:330-336 | Returns a fresh array holding the value plus `extralen` spare bytes, and reports the value's length. |
| Fml32.NothingAfter | tests/fml32.cpp:499-570 | When `next` finds nothing, every entry position, each repeated value included, is at or before the cursor in (id, occurrence) order. |
| Fml32.NothingBetween | tests/fml32.cpp:499-570 | No entry lies strictly between the cursor and the entry `next` returns. |
| Fml32.Fnext32 | tests/fml32.cpp:499-570 | Returns the successor in (id, occurrence) order with its true length, starting from `BADFLDID`. The value is copied only when it fits, and a short `len` is not an error. At the end the answer is false, the cursor stays, and no entry position (repeated values included) lies after the cursor. |
| Fml32.Fcpy32 | src/fml32.cpp:325-329 | Both buffer guards run, destination first, then `cpy`. On success the destination holds the source's fields. |
| Fml32.Fdelete32 | src/fml32.cpp:337-341 | After the buffer guard, exactly the listed ids are removed. |
| Fml32.Fproj32 | src/fml32.cpp:342-346 | After the buffer guard, only the listed ids remain. |
| Fml32.Fprojcpy32 | src/fml32.cpp:347-352 | Both buffer guards run. Then the destination holds exactly the listed fields of the source, or fails with `FNOSPACE`. |
| Fml32.Fconcat32 | src/fml32.cpp:471-475 | Both buffer guards run. Then the source's values follow the destination's, or the call fails with `FNOSPACE` exactly when they do not fit. |
| Fml32.Fchksum32 | src/fml32.cpp:368-371 | Fails exactly when the buffer guard fails. |
| Fml32.ChksumOfSameContent | tests/fml32.cpp:178-199 | Buffers with the same values for every id have the same checksum, so a copy has its source's checksum. |
| Fml32.Ffindocc32 | tests/fml32.cpp:134-165 | Outside the regex case, returns the first occurrence byte-equal to the stored form of the value, with none equal before it. No match is `FNOTPRES`. |
| TypeConversion.Signed | src/fml32.cpp:433-446 | Reads `n` bytes as a signed number, which lies in the signed range of `n` bytes. |
| TypeConversion.SignedEncode | src/fml32.cpp:386-401 | A value within a type's range, written and read back, is the same value. |
| TypeConversion.EncodeSigned | src/fml32.cpp:386-401 | Any bytes are the encoding of the number they read as. |
| TypeConversion.NarrowingWraps | src/fml32.cpp:392-397 | A narrowing cast keeps the value modulo 256^n, within the signed range. |
| TypeConversion.Atol | src/fml32.cpp:412-420 | `atol` returns a value within the `long` range. |
| TypeConversion.CText | src/fml32.cpp:449-451 | Returns the bytes before the first NUL, or all of them when there is none. |
| TypeConversion.AtolOfDecimal | src/fml32.cpp:404-420 | `atol` reads back the text `std::to_string` wrote, pinned to the `long` range. |
| TypeConversion.AtolWithoutNumber | src/fml32.cpp:412-420 | Text starting with no digit, sign or space converts to 0. |
| TypeConversion.Floating | src/fml32.cpp:398-403 | Float and double conversions deliver a value of the target's shape, or `FEBADOP`. |
| TypeConversion.FromInteger | src/fml32.cpp:392-410 | A `short`, `char` or `long` target holds the integer after a C cast: equal modulo 256^width, and equal when it fits. A text target holds `std::to_string`'s text plus a NUL, with length text + 1 and no NUL inside. Float and double targets get their width. An unknown target is `FEBADOP`. |
| TypeConversion.FromText | src/fml32.cpp:412-429 | A `short` or `long` target holds `atol` of the text, cast (a `long` target holds it exactly). A `char` target takes the first character, or NUL for an empty text. A text target holds the text plus a NUL, with length text + 1. An unknown target is `FEBADOP`. |
| TypeConversion.Convert | src/fml32.cpp:431-461 | Fails with `FEBADOP` exactly when either type is not one of the seven. A fixed target gets its width and a text target a NUL-terminated value, always readable as the target type. The values delivered are stated by the lemmas below. |
| TypeConversion.EncodeNarrows | src/fml32.cpp:386-397 | Writing an integer into `n` bytes keeps it modulo 256^n, and exactly when it fits. |
| TypeConversion.StringToChar | src/fml32.cpp:414-416 | A string converted to `char` is its first character, or NUL for the empty string. |
| TypeConversion.IntegerToText | src/fml32.cpp:404-410 | A `short` or `long` converted to string or carray is `std::to_string` of its value plus a NUL. The length is the text's length + 1. |
| TypeConversion.CharToText | src/fml32.cpp:434-438 | A `char` converted to string or carray is that byte and a NUL, with length 2. |
| TypeConversion.TextToText | src/fml32.cpp:423-425 | A string (up to its NUL) or a carray (its `fromlen` bytes) converted to text is that text plus a NUL. The length is the text's length + 1. |
| TypeConversion.IntegerToInteger | src/fml32.cpp:392-397 | Between `short`, `char` and `long`, the result is a C cast of the value read. |
| TypeConversion.TextToInteger | src/fml32.cpp:412-420 | A string or carray converted to `short` or `long` is `atol` of its text, cast, and exactly that for `long`. |
| TypeConversion.ShortLongShort | src/fml32.cpp:433-446 | A `short` widened to `long` and narrowed back is the same `short`. |
| TypeConversion.LongStringLong | src/fml32.cpp:445-451 | A `long` written as a string and read back is the same `long`. |
| TypeConversion.CharStringChar | src/fml32.cpp:435-439 | A `char` becomes a one-character string, and the string's first character is that `char`. |
| TypeConversion.StringToString | src/fml32.cpp:449-451 | A stored string converted to a string or carray is the same bytes. |
| TypeConversion.ConversionArea.Ftypcvt32 | src/fml32.cpp:373-462 | A null `tolen`, then a null `fromval`, is `FEINVAL`. Otherwise `Convert`'s result fills the per-thread area and `*tolen`. On failure neither changes. |
| CFml32.FoundReadable | tests/fml32.cpp:246-281 | A found value has its field's shape. |
| CFml32.Fetched | src/fml32.cpp:523-541 | Errors come in order: the guards, then `FNOTPRES` for an absent occurrence, then `FEBADOP` for an unconvertible pair. The result is readable as the target type. |
| CFml32.FetchedOwnType | src/fml32.cpp:523-541 | Fetching a short, long, char or string field as its own type gives the stored bytes back. |
| CFml32.CarrayGainsNul | src/fml32.cpp:452-454 | A carray converted to a carray gains a terminating zero byte. |
| CFml32.SameTypeStoresSame | src/fml32.cpp:495-507 | Storing through a conversion to the field's own type stores what plain `chg` would, for short, long, char and string fields. |
| CFml32.StoredString | tests/fml32.cpp:246-281 | A string field stores the text before the first NUL, plus that NUL. |
| CFml32.CFchg32 | src/fml32.cpp:495-507 | Runs the guards, then a null value is `FEINVAL`. Then the conversion error, or the `chg` outcome of the converted value. |
| CFml32.CFadd32 | src/fml32.cpp:477-493 | Like `CFchg32` at the current count. It never fails with `FNOTPRES`. |
| CFml32.CFfindocc32 | src/fml32.cpp:509-521 | Runs the guards, then the conversion. Then `Ffindocc32` of the converted value. |
| CFml32.CFfind32 | src/fml32.cpp:523-541 | Fails exactly when `Fetched` does, with its error and the area untouched. On success the area holds the converted value and the length is the converted one. A failed conversion reports the stored length, and a missing field leaves the length alone. |
| CFml32.CFget32 | src/fml32.cpp:543-565 | A nonzero caller length shorter than the converted value is `FNOSPACE` with nothing copied. A length of 0 or a null pointer is unbounded. On success the converted bytes are copied and the rest of the buffer is untouched. |
| CFml32.Ffinds32 | src/fml32.cpp:590-592 | `CFfind32` to a string. |
| CFml32.Fgets32 | src/fml32.cpp:594-596 | `CFget32` to a string with no length bound. |
| Server.Advertise | src/server.cpp:94-133 | A null or empty name or a null func is `TPEINVAL`. An advertised name with a different func is `TPEMATCH`, and a new name the MIB refuses is `TPELIMIT`; any failure leaves the table unchanged. On success the table maps the name to the func. |
| Server.Unadvertise | src/server.cpp:135-153 | A null or empty name is `TPEINVAL`, and an absent name is `TPENOENT`. Otherwise exactly that name is removed. |
| Server.AdvertiseNeverRebinds | src/server.cpp:115-121 | Advertising never changes an existing name's function. |
| Server.AdvertiseIdempotent | src/server.cpp:115-121 | Re-advertising the same name and func succeeds and changes nothing, whatever the MIB would say. |
| Server.UnadvertiseUndoesAdvertise | src/server.cpp:122-153 | Withdrawing a newly advertised name restores the table. |
| Server.CallsClosedForm | src/server.cpp:168-175 | Call `i` after counter `c` returns 0 exactly when `(c + i + 1) % 8 == 0`, and the selector otherwise. |
| Server.OneInEightReadsAny | src/server.cpp:168-175 | Of any eight consecutive `mtype()` calls, exactly one ignores the selector. |
| Server.HandledMessageSkipped | src/server.cpp:155-158 | After an admin message of type `t` the selector `-(t-1)` takes exactly the lower types. For `t == 1` the selector is 0 and takes every type. |
| Server.InitialSelectorTakesAll | src/server.cpp:88-90 | The initial selector `LONG_MIN` takes every message type. |
| Server.ServerMain.constructor | src/server.cpp:88-90 | A new server has no advertisements, selector `LONG_MIN`, counter 0, and is not stopping. Its srvid and grpno are `uint16_t` fields (lines 70-71), so the `int` values assigned at lines 393-394 are kept modulo 2^16. |
| Server.ServerMain.Tpadvertise | src/server.cpp:94-133 | The result and the new table are `Advertise`'s. The scheduler state is unchanged. |
| Server.ServerMain.Tpunadvertise | src/server.cpp:135-153 | The result and the new table are `Unadvertise`'s. The scheduler state is unchanged. |
| Server.ServerMain.Handle | src/server.cpp:155-166 | Sets the selector to `-(mtype-1)` and the counter to 0. Returns true, and sets `stop`, exactly when both srvid and grpno match. |
| Server.ServerMain.Mtype | src/server.cpp:168-175 | Advances the counter mod 8. Returns 0 exactly when it wraps, and the selector otherwise. |
| Server.Tpadvertise | src/server.cpp:442-448 | Without a server it is `TPEPROTO`. Otherwise it is `server_main::tpadvertise`. |
| Server.Tpunadvertise | src/server.cpp:450-456 | Without a server it is `TPEPROTO`. Otherwise it is `server_main::tpunadvertise`. |
| Server.ReplyRval | src/server.cpp:463-471 | `TPSUCCESS` maps to `TPMINVAL` and `TPFAIL` to `TPESVCFAIL`. Everything else maps to `TPESVCERR`. |
| Server.TxEndAsWrittenNeverCommits | src/server.cpp:236-240 | As written, `tx_end` is never asked to commit, not even after `tpreturn(TPSUCCESS)`. |
| Server.TxEnd | src/server.cpp:236-240 | The corrected `tx_end` argument: commit exactly when the service returned `TPSUCCESS`. |
| Server.Tpreturn | src/server.cpp:458-472 | Models the corrected `tx_end` argument (`Server.TxEnd`, see "## Findings"); as written, line 238 never commits. On a client it is `TPEPROTO`. A transaction is ended exactly when one is open, and a reply is sent exactly when one is expected, carrying the caller's `rcode` and flags. Its `rval` is `TPESVCERR` when the flags are nonzero, and otherwise the mapped `rval` of `Server.ReplyRval`. |
| Server.TpreturnOutcome | src/server.cpp:248-253 | The reply is `TPMINVAL` exactly for `TPSUCCESS` with no flags, `TPESVCFAIL` exactly for `TPFAIL` with no flags, and `TPESVCERR` exactly for nonzero flags or any other `rval` (`TPEXIT` included). Under the corrected `tx_end` argument (`Server.TxEnd`, see "## Findings"), a transaction commits exactly on `TPSUCCESS`; as written, line 238 never commits. |
| Ubb2mib.Stol | src/ubb2mib.cpp:30-30 | `std::stol` returns the leading number. No number is `invalid_argument`, and one beyond the `long` range is `out_of_range`. |
| Ubb2mib.CheckedGet | src/ubb2mib.cpp:25-35 | A missing key is `"<key> required"`, and a value outside [min, max] is `"<key> out of range"`. Otherwise it returns the number the text starts with. |
| Ubb2mib.CheckedGetOr | src/ubb2mib.cpp:37-48 | A missing key gives the default. Otherwise it is `CheckedGet`. |
| Ubb2mib.CheckedGetReadsDecimal | src/ubb2mib.cpp:25-35 | A value written in decimal and within range is read back exactly. |
| Ubb2mib.Mib.MakeGroup | src/ubb2mib.cpp:78-80 | Appends one group record. |
| Ubb2mib.Mib.MakeServer | src/ubb2mib.cpp:88-91 | Appends one server record. |
| Ubb2mib.MachineCheck | src/ubb2mib.cpp:51-68 | Passes exactly when there is one MACHINE entry that has TUXCONFIG, LMID, TUXDIR and APPDIR and whose TUXCONFIG matches the environment's. Anything but one entry is a `logic_error`, and so is a TUXCONFIG mismatch. |
| Ubb2mib.Expand | src/ubb2mib.cpp:50-58 | When the MACHINES check fails, the conversion fails with its error and makes no record. |
| Ubb2mib.ErrorSticks | src/ubb2mib.cpp:50-112 | The first failing entry ends the conversion, and later entries change nothing. |
| Ubb2mib.AddTmServers | src/ubb2mib.cpp:86-92 | The MIB gains exactly the group's transaction-manager server records (`TmServers`), in order, and no group. |
| Ubb2mib.AddEntryServers | src/ubb2mib.cpp:100-110 | The MIB gains exactly the entry's server records (`EntryServers`), in order, and no group. |
| Ubb2mib.AddGroup | src/ubb2mib.cpp:75-92 | One GROUPS entry changes the MIB, the error and the group ids exactly as `GroupStep` says. GRPNO must be in 1..30000, and a record is made. When TMSNAME is non-empty, TMSCOUNT (2..10, default 3) TM servers follow. |
| Ubb2mib.AddServers | src/ubb2mib.cpp:95-110 | One SERVERS entry changes the MIB and the error exactly as `ServerStep` says. SRVID must be in 1..30000 and MIN and MAX in 1..1000 (default 1), and SRVGRP must name a known group. |
| Ubb2mib.AddAllGroups | src/ubb2mib.cpp:72-93 | The GROUPS loop makes the records and group ids of `GroupsUpTo`, or stops at its error. |
| Ubb2mib.AddAllServers | src/ubb2mib.cpp:95-111 | The SERVERS loop makes the records of `ServersUpTo`, or stops at its error. |
| Ubb2mib.Convert | src/ubb2mib.cpp:50-112 | The MIB gains exactly `Expand`'s records, in order. The conversion fails exactly when `Expand` does, with its error. |
| Ubb2mib.GroupsConsistent | src/ubb2mib.cpp:72-93 | After any number of GROUPS entries, every known group id and server belongs to a group record. |
| Ubb2mib.ServersConsistent | src/ubb2mib.cpp:95-111 | SERVERS entries keep every server attached to a group record. |
| Ubb2mib.ServersBelongToGroups | src/ubb2mib.cpp:99-99 | Every server the conversion makes belongs to a group it made. |
| Ubb2mib.AutostartedIsMin | src/ubb2mib.cpp:100-110 | A SERVERS entry autostarts exactly min(MIN, MAX) servers. |
| Ubb2mib.EntryServersDistinct | src/ubb2mib.cpp:100-106 | Within one entry the ids increase. With no RQADDR, every server gets its own queue. |
| Ubb2mib.DefaultQueuesDiffer | src/ubb2mib.cpp:103-105 | Default queue names of different server ids differ. |

## Left out

- The byte layout of a buffer, the `Fneeded32` formula and the per-entry overhead: `fbfr32.h` is not part of this model. `Needed` is only known to be monotone, so a strictly larger `Frealloc32` size (tests/fml32.cpp:43-59) cannot be derived.
- The `Fchksum32` formula: the checksum is an uninterpreted function of the entries. That an empty buffer's checksum differs from a filled one's (tests/fml32.cpp:188) is therefore not provable.
- `Fupdate32`, `Fjoin32` and `Fojoin32` only delegate to the engine, and nothing shows their semantics.
- The boolean-expression compiler and evaluator (`Fboolco32`, `Fboolev32`, `Fboolpr32`) are not part of this model.
- Regex matching in `Ffindocc32` for a STRING field with `len != 0`: the match is an uninterpreted predicate, because the regex dialect belongs to a library. Every other case is an exact byte comparison.
- The field-name tables: `Fldid32`, `Fname32`, `Fidnm_unload32` and `Fnmid_unload32` read external files. A nested FML32 value is stored as opaque bytes.
- Float and double conversions (`atof`, `static_cast<float>`, `std::to_string` of a floating value) are uninterpreted. Only the width or NUL-terminated shape of their result is known.
- Stream I/O (`Fprint32`, `Ffprint32`, `Fwrite32`, `Fread32`, `Fextread32`), `exception_boundary`, and the thread-local `Ferror32`/`Flasterr32`: errors are values here.
- `malloc`, `realloc` and `free`: the address of a new block is a parameter, and `Ffree32` releases nothing.
- `FLDOCC32` and `FLDLEN32` are signed 32-bit in C. Occurrence numbers and lengths here are naturals, so negative arguments are not modelled.
- Fml32.Fget32: the length is reported for every type on `FNOSPACE`. The test checks this only for char, float, double, string and carray: the length checks for short and long are commented out (tests/fml32.cpp:295, 302).
- The server's dispatch machinery:
  - threads, the mutex and the atomics;
  - `setjmp`/`longjmp` in `tpreturn` and `tpforward`;
  - message-queue sends, `tx_end` itself and the main loop;
  - `_tmstartserver` argument parsing.
- The MIB's answer to `advertise` enters `Server.Advertise` as a flag. `unadvertise` in the MIB is not modelled.
- Server.ServerMain.Handle: the srvid and grpno read from the admin buffer are parameters. Reading a buffer that lacks them is not modelled.
- The `tperrno` numbers and the `TPSUCCESS`/`TPMINVAL` values come from the ATMI headers, which are not part of this model. The Tuxedo values are used.
- The FML32 error numbers 1..24 (`FmlErrors.Code`, `FmlErrors.FromCode`) come from Tuxedo's `fml32.h`, which is not part of this model.
- Server.Tpreturn: on a client the source sets `TPEPROTO` and then calls `abort()` (src/server.cpp:460-462). The model returns `Failure(TPEPROTO)` and does not model the process ending.
- `src/ipc.h` (System V queues and semaphores) is not part of this model.
- In `ubb2mib`, these are left out:
  - `srand`, `rand`, `std::hash` and the MIB host and counter;
  - `checked_copy` into the MIB's fixed-size fields, and its length errors;
  - the optional `ULOGPFX` and `TLOGDEVICE` copies;
  - the MIB's own capacity errors in `make_group`/`make_server`.

  The TUXCONFIG environment value is a parameter, so a missing variable is not modelled.

## Findings

| source | as written | input that shows it | evidently intended | confidence | as-written member | corrected member |
|---|---|---|---|---|---|---|
| src/server.cpp:236-240 | The free `tpreturn` first maps `rval` (`TPSUCCESS` becomes `TPMINVAL`, lines 463-471). The thread-side `tpreturn` then calls `tx_end(rval == TPSUCCESS)` on the mapped value, which is never `TPSUCCESS`. | `tpreturn(TPSUCCESS, 0, data, len, 0)` in a service running in a transaction: `tx_end` gets false. | `tx_end` commits when the service returned `TPSUCCESS`. | not executed | Server.TxEndAsWrittenNeverCommits | Server.TxEnd |
