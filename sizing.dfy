/**
  Space accounting of an FML32 buffer. The byte layout lives in the buffer
  engine, which is not part of this model, so the sizing estimate `Fneeded32`
  and the per-entry overhead are left uninterpreted; the estimate is only
  known to grow with both of its arguments. A buffer uses the size of an
  empty buffer, `Fneeded32(0, 0)`, plus, per entry, the overhead and the
  value bytes.
 */
module Sizing {
  import opened FieldIds
  import opened Entries

  /** Larger arguments never give a smaller estimate. */
  ghost predicate Monotone(f: (nat, nat) -> nat) {
    forall a: nat, b: nat, c: nat, d: nat :: a <= c && b <= d ==> f(a, b) <= f(c, d)
  }

  type NeededFn = f: (nat, nat) -> nat | Monotone(f) witness (a: nat, b: nat) => 0

  /** `Fneeded32(F, V)`: bytes for a buffer of `F` fields of `V` value bytes each. */
  const Needed: NeededFn

  /** The bytes an entry takes besides its value. */
  const EntryOverhead: nat

  /** The size of a buffer with no fields. */
  function Header(): nat {
    Needed(0, 0)
  }

  function EntrySize(e: Entry): nat {
    EntryOverhead + |e.value|
  }

  /** The bytes taken by the entries. */
  function Payload(s: seq<Entry>): nat {
    if s == [] then 0 else EntrySize(s[0]) + Payload(s[1..])
  }

  /** `Fused32`. */
  function Used(s: seq<Entry>): nat {
    Header() + Payload(s)
  }

  lemma {:induction false} PayloadAppend(a: seq<Entry>, b: seq<Entry>)
    ensures Payload(a + b) == Payload(a) + Payload(b)
  {
    if a == [] {
      assert a + b == b;
    } else {
      assert (a + b)[1..] == a[1..] + b;
      PayloadAppend(a[1..], b);
    }
  }

  lemma PayloadSplit(s: seq<Entry>, i: nat)
    requires i < |s|
    ensures Payload(s) == Payload(s[..i]) + EntrySize(s[i]) + Payload(s[i + 1..])
  {
    var rest := [s[i]] + s[i + 1..];
    assert s == s[..i] + rest;
    PayloadAppend(s[..i], rest);
    assert rest[0] == s[i] && rest[1..] == s[i + 1..];
    assert Payload(rest) == EntrySize(s[i]) + Payload(s[i + 1..]);
  }

  /** The bytes `chg` adds: the length change of a replaced value, or a whole new entry. */
  function ChgGrowth(s: seq<Entry>, id: FieldId, oc: nat, v: Bytes): int
    requires oc <= Count(s, id)
  {
    if oc < Count(s, id) then |v| - |Values(s, id)[oc]| else EntryOverhead + |v|
  }

  lemma UsedReplace(s: seq<Entry>, id: FieldId, oc: nat, v: Bytes)
    requires oc < Count(s, id)
    ensures Used(Replace(s, id, oc, v)) == Used(s) + ChgGrowth(s, id, oc, v)
  {
    var i := Position(s, id, oc);
    var r := Replace(s, id, oc, v);
    PayloadSplit(s, i);
    PayloadSplit(r, i);
    assert r[..i] == s[..i] && r[i + 1..] == s[i + 1..];
  }

  lemma UsedInsert(s: seq<Entry>, e: Entry)
    ensures Used(Insert(s, e)) == Used(s) + EntrySize(e)
  {
    var k := InsertPosition(s, e.id);
    var r := Insert(s, e);
    PayloadSplit(r, k);
    assert r[..k] == s[..k] && r[k + 1..] == s[k..];
    assert s == s[..k] + s[k..];
    PayloadAppend(s[..k], s[k..]);
  }

  /** `chg` grows the used size by exactly `ChgGrowth`. */
  lemma UsedChg(s: seq<Entry>, id: FieldId, oc: nat, v: Bytes)
    requires oc <= Count(s, id)
    ensures oc < Count(s, id) ==> Used(Replace(s, id, oc, v)) == Used(s) + ChgGrowth(s, id, oc, v)
    ensures oc == Count(s, id) ==> Used(Insert(s, Entry(id, v))) == Used(s) + ChgGrowth(s, id, oc, v)
  {
    if oc < Count(s, id) {
      UsedReplace(s, id, oc, v);
    } else {
      UsedInsert(s, Entry(id, v));
    }
  }

  lemma UsedRemove(s: seq<Entry>, id: FieldId, oc: nat)
    requires oc < Count(s, id)
    ensures Used(Remove(s, id, oc)) == Used(s) - EntryOverhead - |Values(s, id)[oc]|
  {
    var i := Position(s, id, oc);
    PayloadSplit(s, i);
    PayloadAppend(s[..i], s[i + 1..]);
  }

  lemma {:induction false} UsedFilter(s: seq<Entry>, ids: set<FieldId>, keep: bool)
    ensures Used(Filter(s, ids, keep)) <= Used(s)
  {
    if s != [] {
      UsedFilter(s[1..], ids, keep);
      if (s[0].id in ids) == keep {
        assert ([s[0]] + Filter(s[1..], ids, keep))[1..] == Filter(s[1..], ids, keep);
      }
    }
  }

  lemma {:induction false} UsedConcat(d: seq<Entry>, src: seq<Entry>)
    ensures Used(Concat(d, src)) == Used(d) + Payload(src)
    decreases |src|
  {
    if src != [] {
      UsedInsert(d, src[0]);
      UsedConcat(Insert(d, src[0]), src[1..]);
    }
  }

  /** Two buffers with the same logical content use the same number of bytes. */
  lemma UsedOfContent(a: seq<Entry>, b: seq<Entry>)
    requires Sorted(a) && Sorted(b)
    requires forall x :: Values(a, x) == Values(b, x)
    ensures Used(a) == Used(b)
  {
    Canonical(a, b);
  }
}
