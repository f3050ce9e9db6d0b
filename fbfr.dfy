/**
  The FML32 buffer engine: one buffer whose capacity is fixed until it is
  re-initialised, holding the sorted entry sequence of `Entries`. Every
  operation either succeeds or fails with an error and leaves the buffer as it
  was. The engine's own source is not part of this model; its behaviour here
  is the one the C API and its test suite rely on.
 */
module Fbfr {
  import opened Wrappers
  import opened FmlErrors
  import opened FieldIds
  import opened Entries
  import opened Sizing

  /** The ids of a list terminated by `BADFLDID`, as `Fdelete32` and `Fproj32` take it. */
  function ListIds(ids: seq<FieldId>): (r: set<FieldId>)
    requires BADFLDID in ids
    ensures BADFLDID !in r
    ensures forall x | x in r :: x in ids
    ensures forall i | 0 <= i < |ids| && BADFLDID !in ids[..i] :: ids[i] == BADFLDID || ids[i] in r
  {
    if ids[0] == BADFLDID then {}
    else
      var rest := ListIds(ids[1..]);
      assert forall i | 1 <= i < |ids| && BADFLDID !in ids[..i] :: BADFLDID !in ids[1..][..i - 1] by {
        forall i | 1 <= i < |ids| && BADFLDID !in ids[..i]
          ensures BADFLDID !in ids[1..][..i - 1]
        {
          assert ids[1..][..i - 1] == ids[1..i];
        }
      }
      {ids[0]} + rest
  }

  /**
    What `chg` of value `v` at occurrence `oc` of `id` does to entries `s` in a
    buffer of `size` bytes, leaving `s'` and reporting `r`.
   */
  ghost predicate ChgOutcome(s: seq<Entry>, s': seq<Entry>, size: nat, id: FieldId, oc: nat, v: Bytes,
                             r: Result<Unit, Error>)
  {
    && (r == Failure(FNOTPRES) <==> oc > Count(s, id))
    && (r == Failure(FNOSPACE) <==> oc <= Count(s, id) && Used(s) + ChgGrowth(s, id, oc, v) > size)
    && (r.Failure? ==> (r.error == FNOTPRES || r.error == FNOSPACE) && s' == s)
    && (r.Success? ==>
          && oc <= Count(s, id)
          && Values(s', id) == Changed(Values(s, id), oc, v)
          && (forall x | x != id :: Values(s', x) == Values(s, x))
          && Used(s') == Used(s) + ChgGrowth(s, id, oc, v))
  }

  /** What `del` of occurrence `oc` of `id` does. */
  ghost predicate DelOutcome(s: seq<Entry>, s': seq<Entry>, id: FieldId, oc: nat, r: Result<Unit, Error>) {
    && (r.Failure? <==> oc >= Count(s, id))
    && (r.Failure? ==> r.error == FNOTPRES && s' == s)
    && (r.Success? ==>
          && oc < Count(s, id)
          && Values(s', id) == Values(s, id)[..oc] + Values(s, id)[oc + 1..]
          && (forall x | x != id :: Values(s', x) == Values(s, x)))
  }

  /** What `delall` of `id` does. */
  ghost predicate DelallOutcome(s: seq<Entry>, s': seq<Entry>, id: FieldId, r: Result<Unit, Error>) {
    && (r.Failure? <==> Count(s, id) == 0)
    && (r.Failure? ==> r.error == FNOTPRES && s' == s)
    && Values(s', id) == []
    && (forall x | x != id :: Values(s', x) == Values(s, x))
  }

  /**
    What replacing the content `s` of a buffer of `size` bytes by `next`
    does: `FNOSPACE` and no change when `next` does not fit.
   */
  ghost predicate ReplaceAllOutcome(s: seq<Entry>, s': seq<Entry>, size: nat, next: seq<Entry>, r: Result<Unit, Error>) {
    && (r.Failure? <==> size < Used(next))
    && (r.Failure? ==> r.error == FNOSPACE && s' == s)
    && (r.Success? ==> forall x :: Values(s', x) == Values(next, x))
  }

  class Fbfr32 {
    /** The address of the buffer, which the alignment guard inspects. */
    var addr: nat
    /** The capacity in bytes (`Fsizeof32`). */
    var size: nat
    var entries: seq<Entry>

    /**
      Sorted entries, no `BADFLDID`, values of their type's shape, and content
      that fits the capacity.
     */
    ghost predicate Valid()
      reads this
    {
      Sorted(entries) && NoBadIds(entries) && AllWellTyped(entries) && Used(entries) <= size
    }

    /** An empty buffer of `size` bytes at `addr`: `malloc` followed by `Finit32`. */
    constructor (addr: nat, size: nat)
      requires Header() <= size
      ensures this.addr == addr && this.size == size && entries == []
      ensures Valid()
    {
      this.addr := addr;
      this.size := size;
      entries := [];
    }

    /** `init`: the buffer becomes empty with capacity `buflen`. */
    method Init(buflen: nat)
      requires Header() <= buflen
      modifies this
      ensures addr == old(addr) && size == buflen && entries == []
      ensures Valid()
    {
      size := buflen;
      entries := [];
    }

    /** `reinit` after `realloc`: a new capacity, the same fields. */
    method Reinit(buflen: nat)
      requires Valid() && Used(entries) <= buflen
      modifies this
      ensures addr == old(addr) && size == buflen && entries == old(entries)
      ensures Valid()
    {
      size := buflen;
    }

    /**
      `chg`: replaces occurrence `oc` of `id`, or appends it when `oc` is the
      occurrence count. An occurrence beyond the count is `FNOTPRES`; a result
      that does not fit the capacity is `FNOSPACE`. The value is read from the
      caller's memory as `StoredValue` says.
     */
    method Chg(id: FieldId, oc: nat, mem: Bytes, len: nat) returns (r: Result<Unit, Error>)
      requires Valid() && id != BADFLDID && ValidType(Fldtype32(id))
      requires Readable(Fldtype32(id), mem, len)
      modifies this
      ensures Valid() && addr == old(addr) && size == old(size)
      ensures ChgOutcome(old(entries), entries, size, id, oc, StoredValue(Fldtype32(id), mem, len), r)
    {
      var v := StoredValue(Fldtype32(id), mem, len);
      var n := Count(entries, id);
      if oc > n {
        return Failure(FNOTPRES);
      }
      var next: seq<Entry>;
      if oc < n {
        next := Replace(entries, id, oc, v);
        forall x {
          ReplaceValues(entries, id, oc, v, x);
        }
      } else {
        next := Insert(entries, Entry(id, v));
        InsertSorted(entries, Entry(id, v));
        forall x {
          InsertValues(entries, Entry(id, v), x);
        }
      }
      UsedChg(entries, id, oc, v);
      if Used(next) > size {
        return Failure(FNOSPACE);
      }
      entries := next;
      return Success(Unit);
    }

    /** `del`: removes occurrence `oc` of `id`; the later ones move down by one. */
    method Del(id: FieldId, oc: nat) returns (r: Result<Unit, Error>)
      requires Valid()
      modifies this
      ensures Valid() && addr == old(addr) && size == old(size)
      ensures DelOutcome(old(entries), entries, id, oc, r)
    {
      if oc >= Count(entries, id) {
        return Failure(FNOTPRES);
      }
      var next := Remove(entries, id, oc);
      forall x {
        RemoveValues(entries, id, oc, x);
      }
      UsedRemove(entries, id, oc);
      RemoveKeepsOrder(entries, id, oc);
      entries := next;
      return Success(Unit);
    }

    /** Keeps only the entries whose id is (`keep`) or is not (`!keep`) in `ids`. */
    method FilterIds(ids: set<FieldId>, keep: bool)
      requires Valid()
      modifies this
      ensures Valid() && addr == old(addr) && size == old(size)
      ensures entries == Filter(old(entries), ids, keep)
      ensures forall x :: Values(entries, x) == if (x in ids) == keep then old(Values(entries, x)) else []
    {
      forall x {
        FilterValues(entries, ids, keep, x);
      }
      FilterSorted(entries, ids, keep);
      UsedFilter(entries, ids, keep);
      entries := Filter(entries, ids, keep);
    }

    /** `delall`: removes every occurrence of `id`; none present is `FNOTPRES`. */
    method Delall(id: FieldId) returns (r: Result<Unit, Error>)
      requires Valid()
      modifies this
      ensures Valid() && addr == old(addr) && size == old(size)
      ensures DelallOutcome(old(entries), entries, id, r)
    {
      if Count(entries, id) == 0 {
        return Failure(FNOTPRES);
      }
      FilterIds({id}, false);
      return Success(Unit);
    }

    /** `xdelete`: removes every field listed in `ids`. */
    method Xdelete(ids: seq<FieldId>)
      requires Valid() && BADFLDID in ids
      modifies this
      ensures Valid() && addr == old(addr) && size == old(size)
      ensures forall x :: Values(entries, x) == if x in ListIds(ids) then [] else old(Values(entries, x))
    {
      FilterIds(ListIds(ids), false);
    }

    /** `proj`: keeps only the fields listed in `ids`. */
    method Proj(ids: seq<FieldId>)
      requires Valid() && BADFLDID in ids
      modifies this
      ensures Valid() && addr == old(addr) && size == old(size)
      ensures forall x :: Values(entries, x) == if x in ListIds(ids) then old(Values(entries, x)) else []
    {
      FilterIds(ListIds(ids), true);
    }

    /**
      `cpy`: this buffer takes the fields of `src`; a capacity smaller than what
      `src` uses is `FNOSPACE`.
     */
    method Cpy(src: Fbfr32) returns (r: Result<Unit, Error>)
      requires Valid() && src.Valid()
      modifies this
      ensures Valid() && addr == old(addr) && size == old(size)
      ensures ReplaceAllOutcome(old(entries), entries, size, old(src.entries), r)
      ensures r.Success? ==> entries == old(src.entries)
    {
      if size < Used(src.entries) {
        return Failure(FNOSPACE);
      }
      entries := src.entries;
      return Success(Unit);
    }

    /**
      `projcpy`: this buffer takes the fields of `src` listed in `ids`; when they
      do not fit it is `FNOSPACE`.
     */
    method Projcpy(src: Fbfr32, ids: seq<FieldId>) returns (r: Result<Unit, Error>)
      requires Valid() && src.Valid() && BADFLDID in ids
      modifies this
      ensures Valid() && addr == old(addr) && size == old(size)
      ensures ReplaceAllOutcome(old(entries), entries, size, old(Filter(src.entries, ListIds(ids), true)), r)
      ensures r.Success? ==>
        forall x :: Values(entries, x) == if x in ListIds(ids) then old(Values(src.entries, x)) else []
    {
      var next := Filter(src.entries, ListIds(ids), true);
      if size < Used(next) {
        return Failure(FNOSPACE);
      }
      forall x {
        FilterValues(src.entries, ListIds(ids), true, x);
      }
      FilterSorted(src.entries, ListIds(ids), true);
      entries := next;
      return Success(Unit);
    }

    /**
      `concat`: the fields of `src` are added after this buffer's own
      occurrences; when the result does not fit it is `FNOSPACE` and nothing is
      added.
     */
    method Concat(src: Fbfr32) returns (r: Result<Unit, Error>)
      requires Valid() && src.Valid()
      modifies this
      ensures Valid() && addr == old(addr) && size == old(size)
      ensures ReplaceAllOutcome(old(entries), entries, size, old(Entries.Concat(entries, src.entries)), r)
      ensures r.Failure? <==> size < old(Used(entries) + Payload(src.entries))
      ensures r.Success? ==> forall x :: Values(entries, x) == old(Values(entries, x) + Values(src.entries, x))
    {
      var next := Entries.Concat(entries, src.entries);
      UsedConcat(entries, src.entries);
      if size < Used(next) {
        return Failure(FNOSPACE);
      }
      forall x {
        ConcatValues(entries, src.entries, x);
      }
      entries := next;
      return Success(Unit);
    }
  }
}
