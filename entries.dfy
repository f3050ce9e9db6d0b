/**
  The logical content of an FML32 buffer: a sequence of entries (field id,
  value bytes) sorted by id, in which the occurrences of one id sit together
  in the order they were added. `Values(s, id)` is what the API can observe
  of one id: its values by occurrence number. The edits below are the
  changes the buffer engine makes to that sequence.
 */
module Entries {
  import opened Wrappers
  import opened FieldIds

  type Byte = b: int | 0 <= b < 256

  type Bytes = seq<Byte>

  datatype Entry = Entry(id: FieldId, value: Bytes)

  /** Non-decreasing ids: type-major order, then field number. */
  predicate Sorted(s: seq<Entry>) {
    forall i, j :: 0 <= i < j < |s| ==> s[i].id <= s[j].id
  }

  /** No stored entry carries `BADFLDID`: the id check keeps it out. */
  predicate NoBadIds(s: seq<Entry>) {
    forall e | e in s :: e.id != BADFLDID
  }

  /** The values of `id`, indexed by occurrence number. */
  function Values(s: seq<Entry>, id: FieldId): seq<Bytes> {
    if s == [] then []
    else if s[0].id == id then [s[0].value] + Values(s[1..], id)
    else Values(s[1..], id)
  }

  /** `Foccur32`: the number of occurrences of `id`. */
  function Count(s: seq<Entry>, id: FieldId): nat {
    |Values(s, id)|
  }

  lemma ValuesCons(e: Entry, t: seq<Entry>, x: FieldId)
    ensures Values([e] + t, x) == (if e.id == x then [e.value] else []) + Values(t, x)
  {
    assert ([e] + t)[1..] == t;
  }

  lemma {:induction false} ValuesAppend(a: seq<Entry>, b: seq<Entry>, x: FieldId)
    ensures Values(a + b, x) == Values(a, x) + Values(b, x)
  {
    if a != [] {
      assert a + b == [a[0]] + (a[1..] + b);
      ValuesCons(a[0], a[1..] + b, x);
      ValuesAppend(a[1..], b, x);
      assert a == [a[0]] + a[1..];
      ValuesCons(a[0], a[1..], x);
    } else {
      assert a + b == b;
    }
  }

  lemma {:induction false} ValuesAbsent(s: seq<Entry>, x: FieldId)
    requires forall i :: 0 <= i < |s| ==> s[i].id != x
    ensures Values(s, x) == []
  {
    if s != [] {
      ValuesAbsent(s[1..], x);
    }
  }

  /** Splitting at `i` splits every id's values at the same place. */
  lemma ValuesSplit(s: seq<Entry>, i: nat, x: FieldId)
    requires i < |s|
    ensures Values(s, x) == Values(s[..i], x) + (if s[i].id == x then [s[i].value] else []) + Values(s[i + 1..], x)
  {
    assert s == s[..i] + ([s[i]] + s[i + 1..]);
    ValuesAppend(s[..i], [s[i]] + s[i + 1..], x);
    ValuesCons(s[i], s[i + 1..], x);
  }

  /** Occurrences of `x` before position `j` never outnumber those before a later position. */
  lemma CountPrefixMonotone(s: seq<Entry>, x: FieldId, j: nat, k: nat)
    requires j <= k <= |s|
    ensures Count(s[..j], x) <= Count(s[..k], x)
  {
    assert s[..k] == s[..j] + s[j..k];
    ValuesAppend(s[..j], s[j..k], x);
  }

  /** The occurrence number of the entry at position `i`. */
  function Occurrence(s: seq<Entry>, i: nat): nat
    requires i < |s|
  {
    Count(s[..i], s[i].id)
  }

  /** The entry at position `i` is what `Values` reports at its occurrence number. */
  lemma ValueAtOccurrence(s: seq<Entry>, i: nat)
    requires i < |s|
    ensures Occurrence(s, i) < Count(s, s[i].id)
    ensures Values(s, s[i].id)[Occurrence(s, i)] == s[i].value
  {
    ValuesSplit(s, i, s[i].id);
  }

  /** The position of occurrence `oc` of `id`. */
  function Position(s: seq<Entry>, id: FieldId, oc: nat): (i: nat)
    requires oc < Count(s, id)
    ensures i < |s| && s[i].id == id && Occurrence(s, i) == oc
    ensures Values(s, id)[oc] == s[i].value
  {
    if s[0].id == id && oc == 0 then
      assert s[..0] == [];
      0
    else
      var j := Position(s[1..], id, if s[0].id == id then oc - 1 else oc);
      assert s[..j + 1] == [s[0]] + s[1..][..j];
      ValuesCons(s[0], s[1..][..j], id);
      j + 1
  }

  /** A value of the right shape for the type of `id`. */
  predicate WellTyped(id: FieldId, v: Bytes) {
    var t := Fldtype32(id);
    if IsFixed(t) then |v| == SizeOf(t)
    else if t == FLD_STRING then |v| >= 1 && v[|v| - 1] == 0 && 0 !in v[..|v| - 1]
    else true
  }

  predicate AllWellTyped(s: seq<Entry>) {
    forall e | e in s :: WellTyped(e.id, e.value)
  }

  /** The length of the NUL-terminated string at the start of `mem`. */
  function CStringLength(mem: Bytes): (n: nat)
    requires 0 in mem
    ensures n < |mem| && mem[n] == 0 && 0 !in mem[..n]
  {
    if mem[0] == 0 then 0 else CStringLength(mem[1..]) + 1
  }

  /** The first NUL is the only NUL with none before it. */
  lemma {:induction false} CStringLengthAt(mem: Bytes, k: nat)
    requires k < |mem| && mem[k] == 0 && 0 !in mem[..k]
    ensures CStringLength(mem) == k
  {
    if k > 0 {
      assert mem[0] == mem[..k][0];
      assert mem[1..][..k - 1] == mem[..k][1..];
      CStringLengthAt(mem[1..], k - 1);
    }
  }

  /** The caller's memory holds a value of type `t` as `chg` reads it. */
  predicate Readable(t: int, mem: Bytes, len: nat) {
    if IsFixed(t) then |mem| >= SizeOf(t)
    else if t == FLD_STRING then 0 in mem
    else if t == FLD_CARRAY then len <= |mem|
    else true
  }

  /**
    The bytes `chg` stores from the caller's memory: the width of a fixed type,
    the string with its terminating NUL, `len` bytes of a carray, and a nested
    buffer as it stands.
   */
  function StoredValue(t: int, mem: Bytes, len: nat): (v: Bytes)
    requires Readable(t, mem, len)
    ensures forall id: FieldId :: Fldtype32(id) == t ==> WellTyped(id, v)
    ensures IsFixed(t) ==> v == mem[..SizeOf(t)]
    ensures t == FLD_STRING ==> |v| == CStringLength(mem) + 1 && v == mem[..|v|]
    ensures t == FLD_CARRAY ==> v == mem[..len]
  {
    if IsFixed(t) then mem[..SizeOf(t)]
    else if t == FLD_STRING then mem[..CStringLength(mem) + 1]
    else if t == FLD_CARRAY then mem[..len]
    else mem
  }

  /** A stored value read back as caller memory stores the same bytes again. */
  lemma StoredValueIdempotent(id: FieldId, v: Bytes, len: nat)
    requires WellTyped(id, v) && ValidType(Fldtype32(id))
    requires Fldtype32(id) == FLD_CARRAY ==> len == |v|
    ensures Readable(Fldtype32(id), v, len)
    ensures StoredValue(Fldtype32(id), v, len) == v
  {
    var t := Fldtype32(id);
    if t == FLD_STRING {
      assert v[|v| - 1] == 0;
      var n := CStringLength(v);
      assert n == |v| - 1;
    }
  }

  /** `chg` at an existing occurrence: that value is replaced, nothing moves. */
  function Replace(s: seq<Entry>, id: FieldId, oc: nat, v: Bytes): (r: seq<Entry>)
    requires oc < Count(s, id)
    ensures |r| == |s| && forall i :: 0 <= i < |s| ==> r[i].id == s[i].id
    ensures forall f | f in r :: f in s || f == Entry(id, v)
  {
    s[Position(s, id, oc) := Entry(id, v)]
  }

  lemma ReplaceValues(s: seq<Entry>, id: FieldId, oc: nat, v: Bytes, x: FieldId)
    requires oc < Count(s, id)
    ensures Values(Replace(s, id, oc, v), x) == if x == id then Values(s, id)[oc := v] else Values(s, x)
  {
    var i := Position(s, id, oc);
    var r := Replace(s, id, oc, v);
    ValuesSplit(s, i, x);
    ValuesSplit(r, i, x);
    assert r[..i] == s[..i] && r[i + 1..] == s[i + 1..];
  }

  /** The number of entries whose id is at most `x`: where an entry of `x` is appended. */
  function InsertPosition(s: seq<Entry>, x: FieldId): (k: nat)
    ensures k <= |s|
    ensures Sorted(s) ==> (forall i :: 0 <= i < k ==> s[i].id <= x) && (forall i :: k <= i < |s| ==> s[i].id > x)
  {
    if s == [] || x < s[0].id then 0 else 1 + InsertPosition(s[1..], x)
  }

  /** `chg` at the occurrence count: a new entry after every entry with an id no larger. */
  function Insert(s: seq<Entry>, e: Entry): (r: seq<Entry>)
    ensures |r| == |s| + 1
    ensures forall f | f in r :: f in s || f == e
  {
    var k := InsertPosition(s, e.id);
    s[..k] + [e] + s[k..]
  }

  lemma InsertSorted(s: seq<Entry>, e: Entry)
    ensures Sorted(s) ==> Sorted(Insert(s, e))
  {
    if Sorted(s) {
      var k := InsertPosition(s, e.id);
      var r := Insert(s, e);
      forall i, j | 0 <= i < j < |r|
        ensures r[i].id <= r[j].id
      {
        var a := if i < k then s[i].id else if i == k then e.id else s[i - 1].id;
        var b := if j < k then s[j].id else if j == k then e.id else s[j - 1].id;
        assert r[i].id == a && r[j].id == b;
      }
    }
  }

  lemma InsertValues(s: seq<Entry>, e: Entry, x: FieldId)
    requires Sorted(s)
    ensures Values(Insert(s, e), x) == if x == e.id then Values(s, x) + [e.value] else Values(s, x)
  {
    var k := InsertPosition(s, e.id);
    InsertSplit(s, e, x);
    assert s == s[..k] + s[k..];
    ValuesAppend(s[..k], s[k..], x);
    var before, after := Values(s[..k], x), Values(s[k..], x);
    if x == e.id {
      ValuesAbsent(s[k..], x);
      assert after == [];
      assert before + [e.value] + after == (before + after) + [e.value];
    } else {
      assert before + [] + after == before + after;
    }
  }

  /** The values of an insertion: those before the insertion point, the new one, those after. */
  lemma InsertSplit(s: seq<Entry>, e: Entry, x: FieldId)
    ensures var k := InsertPosition(s, e.id);
      Values(Insert(s, e), x) == Values(s[..k], x) + (if e.id == x then [e.value] else []) + Values(s[k..], x)
  {
    var k := InsertPosition(s, e.id);
    assert Insert(s, e) == s[..k] + ([e] + s[k..]);
    ValuesAppend(s[..k], [e] + s[k..], x);
    ValuesCons(e, s[k..], x);
  }

  /** `del`: occurrence `oc` of `id` goes, later occurrences move down by one. */
  function Remove(s: seq<Entry>, id: FieldId, oc: nat): (r: seq<Entry>)
    requires oc < Count(s, id)
    ensures |r| == |s| - 1
    ensures multiset(r) <= multiset(s)
    ensures forall f | f in r :: f in s
  {
    var i := Position(s, id, oc);
    assert s == s[..i] + [s[i]] + s[i + 1..];
    s[..i] + s[i + 1..]
  }

  lemma RemoveKeepsOrder(s: seq<Entry>, id: FieldId, oc: nat)
    requires Sorted(s) && oc < Count(s, id)
    ensures Sorted(Remove(s, id, oc))
  {
    var i := Position(s, id, oc);
    var r := Remove(s, id, oc);
    assert r == s[..i] + s[i + 1..];
    forall a, b | 0 <= a < b < |r|
      ensures r[a].id <= r[b].id
    {
      var a' := if a < i then a else a + 1;
      var b' := if b < i then b else b + 1;
      assert r[a] == s[a'] && r[b] == s[b'];
    }
  }

  lemma RemoveValues(s: seq<Entry>, id: FieldId, oc: nat, x: FieldId)
    requires oc < Count(s, id)
    ensures Values(Remove(s, id, oc), x) == if x == id then Values(s, id)[..oc] + Values(s, id)[oc + 1..] else Values(s, x)
  {
    var i := Position(s, id, oc);
    ValuesSplit(s, i, x);
    ValuesAppend(s[..i], s[i + 1..], x);
  }

  /**
    The entries whose id is (`keep`) or is not (`!keep`) in `ids`: `delall` and
    `xdelete` remove the listed ids, `proj` keeps only them.
   */
  function Filter(s: seq<Entry>, ids: set<FieldId>, keep: bool): (r: seq<Entry>)
    ensures |r| <= |s|
    ensures multiset(r) <= multiset(s)
    ensures forall f | f in r :: f in s
    ensures forall i :: 0 <= i < |r| ==> (r[i].id in ids) == keep
  {
    if s == [] then []
    else
      assert multiset(s) == multiset{s[0]} + multiset(s[1..]) by {
        assert s == [s[0]] + s[1..];
      }
      if (s[0].id in ids) == keep then [s[0]] + Filter(s[1..], ids, keep)
      else Filter(s[1..], ids, keep)
  }

  lemma {:induction false} FilterValues(s: seq<Entry>, ids: set<FieldId>, keep: bool, x: FieldId)
    ensures Values(Filter(s, ids, keep), x) == if (x in ids) == keep then Values(s, x) else []
  {
    if s != [] {
      FilterValues(s[1..], ids, keep, x);
      if (s[0].id in ids) == keep {
        ValuesCons(s[0], Filter(s[1..], ids, keep), x);
      }
    }
  }

  lemma {:induction false} FilterSorted(s: seq<Entry>, ids: set<FieldId>, keep: bool)
    requires Sorted(s)
    ensures Sorted(Filter(s, ids, keep))
    ensures forall i :: 0 <= i < |Filter(s, ids, keep)| ==> Filter(s, ids, keep)[i] in s
  {
    if s != [] {
      FilterSorted(s[1..], ids, keep);
      var t := Filter(s[1..], ids, keep);
      forall i | 0 <= i < |t|
        ensures s[0].id <= t[i].id && t[i] in s
      {
        var j :| 0 <= j < |s[1..]| && s[1..][j] == t[i];
        assert s[j + 1] == t[i];
      }
    }
  }

  /** The values of one id after `chg` at occurrence `oc`: replaced, or appended at the count. */
  function Changed(vs: seq<Bytes>, oc: nat, v: Bytes): (r: seq<Bytes>)
    requires oc <= |vs|
    ensures |r| == if oc < |vs| then |vs| else |vs| + 1
    ensures r[oc] == v && forall k :: 0 <= k < |vs| && k != oc ==> r[k] == vs[k]
  {
    if oc < |vs| then vs[oc := v] else vs + [v]
  }

  /** `concat`: every entry of `src`, in order, added at the end of its id's occurrences. */
  function Concat(d: seq<Entry>, src: seq<Entry>): (r: seq<Entry>)
    ensures |r| == |d| + |src|
    ensures forall f | f in r :: f in d || f in src
    ensures Sorted(d) ==> Sorted(r)
    decreases |src|
  {
    if src == [] then d
    else
      InsertSorted(d, src[0]);
      Concat(Insert(d, src[0]), src[1..])
  }

  lemma {:induction false} ConcatValues(d: seq<Entry>, src: seq<Entry>, x: FieldId)
    requires Sorted(d)
    ensures Values(Concat(d, src), x) == Values(d, x) + Values(src, x)
    decreases |src|
  {
    if src != [] {
      InsertValues(d, src[0], x);
      ConcatValues(Insert(d, src[0]), src[1..], x);
      assert src == [src[0]] + src[1..];
      ValuesCons(src[0], src[1..], x);
    }
  }

  lemma FirstValuePresent(s: seq<Entry>)
    ensures s != [] ==> Values(s, s[0].id) != []
  {
  }

  /**
    Two sorted entry sequences that agree on the values of every id are the
    same sequence: the layout is determined by the logical content.
   */
  lemma {:induction false} Canonical(a: seq<Entry>, b: seq<Entry>)
    requires Sorted(a) && Sorted(b)
    requires forall x :: Values(a, x) == Values(b, x)
    ensures a == b
    decreases |a| + |b|
  {
    if a == [] && b == [] {
    } else if a == [] || b == [] {
      FirstValuePresent(a);
      FirstValuePresent(b);
      assert false;
    } else {
      var x, y := a[0].id, b[0].id;
      if x < y {
        ValuesAbsent(b, x);
        FirstValuePresent(a);
        assert false;
      } else if y < x {
        ValuesAbsent(a, y);
        FirstValuePresent(b);
        assert false;
      } else {
        assert Values(a, x)[0] == a[0].value && Values(b, x)[0] == b[0].value;
        assert a[0] == b[0];
        assert a == [a[0]] + a[1..] && b == [b[0]] + b[1..];
        forall z
          ensures Values(a[1..], z) == Values(b[1..], z)
        {
          var pre: seq<Bytes> := if a[0].id == z then [a[0].value] else [];
          ValuesCons(a[0], a[1..], z);
          ValuesCons(b[0], b[1..], z);
          assert Values(a[1..], z) == Values(a, z)[|pre|..];
          assert Values(b[1..], z) == Values(b, z)[|pre|..];
        }
        Canonical(a[1..], b[1..]);
      }
    }
  }

  /** `Fchksum32`: a hash of the entry sequence whose formula is not part of this model. */
  const Chksum: seq<Entry> -> int

  /** The checksum depends on the logical content only. */
  lemma ChksumOfContent(a: seq<Entry>, b: seq<Entry>)
    requires Sorted(a) && Sorted(b)
    requires forall x :: Values(a, x) == Values(b, x)
    ensures Chksum(a) == Chksum(b)
  {
    Canonical(a, b);
  }

  /** Appending values of two different ids in either order gives the same buffer. */
  lemma InsertCommutes(s: seq<Entry>, e: Entry, f: Entry)
    requires Sorted(s) && e.id != f.id
    ensures Insert(Insert(s, e), f) == Insert(Insert(s, f), e)
  {
    var a, b := Insert(Insert(s, e), f), Insert(Insert(s, f), e);
    InsertSorted(s, e);
    InsertSorted(s, f);
    InsertSorted(Insert(s, e), f);
    InsertSorted(Insert(s, f), e);
    forall x
      ensures Values(a, x) == Values(b, x)
    {
      InsertValues(s, e, x);
      InsertValues(s, f, x);
      InsertValues(Insert(s, e), f, x);
      InsertValues(Insert(s, f), e, x);
    }
    Canonical(a, b);
  }

  /** The first index whose value satisfies `p`, if any. */
  function FirstMatch(vs: seq<Bytes>, p: Bytes -> bool): (r: Option<nat>)
    ensures r.Some? ==> r.value < |vs| && p(vs[r.value]) && forall k :: 0 <= k < r.value ==> !p(vs[k])
    ensures r.None? ==> forall k :: 0 <= k < |vs| ==> !p(vs[k])
  {
    if vs == [] then None
    else if p(vs[0]) then Some(0)
    else match FirstMatch(vs[1..], p)
      case None => None
      case Some(k) => Some(k + 1)
  }

  /** Position of the first entry whose id is above `id`. */
  function FirstAbove(s: seq<Entry>, id: FieldId): (r: Option<nat>)
    ensures r.Some? ==> r.value < |s| && s[r.value].id > id && forall j :: 0 <= j < r.value ==> s[j].id <= id
    ensures r.None? ==> forall j :: 0 <= j < |s| ==> s[j].id <= id
  {
    if s == [] then None
    else if s[0].id > id then Some(0)
    else match FirstAbove(s[1..], id)
      case None => None
      case Some(k) => Some(k + 1)
  }

  /**
    The position `next` moves to from the cursor (`id`, `oc`): the next
    occurrence of `id` when there is one, otherwise the first entry of the next
    id; `BADFLDID` starts at the first entry.
   */
  function NextPosition(s: seq<Entry>, id: FieldId, oc: nat): Option<nat> {
    if id == BADFLDID then (if s == [] then None else Some(0))
    else if oc + 1 < Count(s, id) then Some(Position(s, id, oc + 1))
    else FirstAbove(s, id)
  }

  /** Lexicographic order on cursors (id, occurrence). */
  predicate CursorBefore(id: FieldId, oc: nat, id': FieldId, oc': nat) {
    id < id' || (id == id' && oc < oc')
  }

  /** In a sorted buffer every entry's cursor comes after the cursors of the entries before it. */
  lemma CursorsIncrease(s: seq<Entry>, j: nat, i: nat)
    requires Sorted(s) && j < i < |s|
    ensures CursorBefore(s[j].id, Occurrence(s, j), s[i].id, Occurrence(s, i))
  {
    if s[j].id == s[i].id {
      CountPrefixMonotone(s, s[i].id, j + 1, i);
      ValuesSplit(s[..j + 1], j, s[j].id);
      assert s[..j + 1][..j] == s[..j];
    }
  }

  /**
    `next` is the successor in cursor order: the entry it lands on is after the
    cursor and every entry before it is not; at the end no entry is after the
    cursor.
   */
  lemma NextIsSuccessor(s: seq<Entry>, id: FieldId, oc: nat)
    requires Sorted(s) && NoBadIds(s)
    ensures NextPosition(s, id, oc).Some? ==>
      var i := NextPosition(s, id, oc).value;
      i < |s| && CursorBefore(id, oc, s[i].id, Occurrence(s, i))
      && forall j :: 0 <= j < i ==> !CursorBefore(id, oc, s[j].id, Occurrence(s, j))
    ensures NextPosition(s, id, oc).None? ==>
      forall j :: 0 <= j < |s| ==> !CursorBefore(id, oc, s[j].id, Occurrence(s, j))
  {
    if id == BADFLDID {
    } else if oc + 1 < Count(s, id) {
      var i := Position(s, id, oc + 1);
      forall j | 0 <= j < i
        ensures !CursorBefore(id, oc, s[j].id, Occurrence(s, j))
      {
        CursorsIncrease(s, j, i);
      }
    } else {
      forall j | 0 <= j < |s| && s[j].id == id
        ensures Occurrence(s, j) <= oc
      {
        ValueAtOccurrence(s, j);
      }
    }
  }
}
