/** Annotation records and the byte layout of the annotation file. */
module CpaRecords {
  import opened Sequences

  type U8 = n: nat | n < 0x100
  type U16 = n: nat | n < 0x1_0000
  type U32 = n: nat | n < 0x1_0000_0000
  type U64 = n: nat | n < 0x1_0000_0000_0000_0000

  const OP_BEGIN: nat := 0x01
  const OP_QUEUE: nat := 0x04
  const OP_DEQUEUE: nat := 0x05
  const OP_SIZE_QUEUE: nat := 0x08
  const OP_LINK: nat := 0x0A

  const FL_NONE: nat := 0x00
  const FL_QOPP: nat := 0x04
  const FL_LINK: nat := 0x10
  const FL_RESET: nat := 0x20

  /** The target of a link that is not known yet. */
  const UNKNOWN: nat := 0xFFFF

  const HEADER_SIZE: nat := 40
  const RECORD_SIZE: nat := 19

  /** One record in the file is indexed out of this many. */
  const INDEX_STEP: nat := 100000

  /** A record as it is written to the file. */
  datatype Entry = Entry(time: U64, data: U32, sm: U16, stq: U16, op: U8, flag: U8, cpu: U8)

  function EntryOf(time: nat, data: int, sm: nat, stq: nat, op: nat, flag: nat, cpu: nat): Entry {
    Entry(time % 0x1_0000_0000_0000_0000, data % 0x1_0000_0000, sm % 0x1_0000, stq % 0x1_0000,
          op % 0x100, flag % 0x100, cpu % 0x100)
  }

  ghost predicate Unresolved(e: Entry) {
    e.op == OP_LINK && e.stq == UNKNOWN
  }

  /** A record shared by the pending log, at most one queue and at most one outstanding link.
      Only `data`, `stq` and `dump` are assigned after the record is made. */
  class AnnotateData {
    const time: U64
    const origData: U32
    const sm: U16
    const op: U8
    const flag: U8
    const cpu: U8
    var data: U32
    var stq: U16
    var dump: bool

    constructor (e: Entry)
      ensures AsEntry() == e && data == e.data && op == e.op && stq == e.stq && dump
    {
      time, data, origData, sm, stq := e.time, e.data, e.data, e.sm, e.stq;
      op, flag, cpu, dump := e.op, e.flag, e.cpu, true;
    }

    /** What the record looks like when written: the original count, not the residual one. */
    function AsEntry(): Entry
      reads this`stq
    {
      Entry(time, origData, sm, stq, op, flag, cpu)
    }
  }

  // ----- Bytes -----

  function LittleEndian(v: nat, w: nat): (bs: seq<U8>)
    ensures |bs| == w
  {
    if w == 0 then [] else [v % 0x100] + LittleEndian(v / 0x100, w - 1)
  }

  function FromLittleEndian(bs: seq<U8>): nat {
    if bs == [] then 0 else bs[0] + 0x100 * FromLittleEndian(bs[1..])
  }

  ghost predicate Fits(v: nat, w: nat)
    decreases w
  {
    if w == 0 then v == 0 else Fits(v / 0x100, w - 1)
  }

  lemma {:induction false} LittleEndianReads(v: nat, w: nat)
    requires Fits(v, w)
    ensures FromLittleEndian(LittleEndian(v, w)) == v
    decreases w
  {
    if w > 0 {
      LittleEndianReads(v / 0x100, w - 1);
      assert LittleEndian(v, w)[1..] == LittleEndian(v / 0x100, w - 1);
    }
  }

  function Encode(e: Entry): (bs: seq<U8>)
    ensures |bs| == RECORD_SIZE
  {
    LittleEndian(e.time, 8) + LittleEndian(e.data, 4) + LittleEndian(e.sm, 2) + LittleEndian(e.stq, 2)
    + [e.op, e.flag, e.cpu]
  }

  /** A field of `w` bytes at offset `at`. */
  function Field(bs: seq<U8>, at: nat, w: nat): nat
    requires at + w <= |bs|
  {
    FromLittleEndian(bs[at..at + w])
  }

  /** Reading the encoding back gives the record's fields. */
  lemma {:induction false} EncodeReads(e: Entry)
    ensures var bs := Encode(e);
      && Field(bs, 0, 8) == e.time && Field(bs, 8, 4) == e.data && Field(bs, 12, 2) == e.sm
      && Field(bs, 14, 2) == e.stq && bs[16] == e.op && bs[17] == e.flag && bs[18] == e.cpu
  {
    var bs := Encode(e);
    assert bs[0..8] == LittleEndian(e.time, 8);
    assert bs[8..12] == LittleEndian(e.data, 4);
    assert bs[12..14] == LittleEndian(e.sm, 2);
    assert bs[14..16] == LittleEndian(e.stq, 2);
    FitsWord(e.time);
    FitsHalf(e.data);
    FitsShort(e.sm);
    FitsShort(e.stq);
    LittleEndianReads(e.time, 8);
    LittleEndianReads(e.data, 4);
    LittleEndianReads(e.sm, 2);
    LittleEndianReads(e.stq, 2);
  }

  lemma {:induction false} FitsShort(v: U16)
    ensures Fits(v, 2)
  {
    assert Fits(v / 0x100, 1) by { assert v / 0x100 / 0x100 == 0; }
  }

  lemma {:induction false} FitsHalf(v: U32)
    ensures Fits(v, 4)
  {
    var h := v / 0x100 / 0x100;
    FitsShort(h);
    assert Fits(v / 0x100, 3);
  }

  lemma {:induction false} FitsWord(v: U64)
    ensures Fits(v, 8)
  {
    var a := v / 0x100;
    var b := a / 0x100;
    var c := b / 0x100;
    FitsHalf(c / 0x100);
    assert Fits(c, 5);
    assert Fits(b, 6);
    assert Fits(a, 7);
  }

  function Bytes(es: seq<Entry>): (bs: seq<U8>)
    ensures |bs| == RECORD_SIZE * |es|
  {
    if es == [] then [] else Bytes(es[..|es| - 1]) + Encode(es[|es| - 1])
  }

  lemma {:induction false} BytesSnoc(es: seq<Entry>, e: Entry)
    ensures Bytes(es + [e]) == Bytes(es) + Encode(e)
  {
    assert (es + [e])[..|es|] == es;
  }

  /** Record `k` of the file occupies the bytes from `HEADER_SIZE + RECORD_SIZE * k`. */
  lemma {:induction false} RecordAt(header: seq<U8>, es: seq<Entry>, k: nat)
    requires |header| == HEADER_SIZE && k < |es|
    ensures var at := HEADER_SIZE + RECORD_SIZE * k;
      at + RECORD_SIZE <= |header + Bytes(es)| && (header + Bytes(es))[at..at + RECORD_SIZE] == Encode(es[k])
    decreases |es|
  {
    var front, last := es[..|es| - 1], es[|es| - 1];
    var at := HEADER_SIZE + RECORD_SIZE * k;
    var file := header + Bytes(front) + Encode(last);
    assert header + Bytes(es) == file;
    if k == |es| - 1 {
      assert file[at..at + RECORD_SIZE] == Encode(last);
    } else {
      RecordAt(header, front, k);
      Within(header + Bytes(front), Encode(last), at, at + RECORD_SIZE);
    }
  }

  lemma {:induction false} Within(a: seq<U8>, b: seq<U8>, i: nat, j: nat)
    requires i <= j <= |a|
    ensures (a + b)[i..j] == a[i..j]
  {
  }

  /** Index entry `k` is the offset of record number `INDEX_STEP * (k + 1)`, counting from one. */
  ghost predicate IndexOk(idx: seq<nat>, n: nat) {
    && |idx| == n / INDEX_STEP
    && forall k :: 0 <= k < |idx| ==> idx[k] == HEADER_SIZE + RECORD_SIZE * (INDEX_STEP * (k + 1) - 1)
  }

  lemma {:induction false} IndexStep(idx: seq<nat>, n: nat)
    requires IndexOk(idx, n)
    ensures (n + 1) % INDEX_STEP == 0 ==> IndexOk(idx + [HEADER_SIZE + RECORD_SIZE * n], n + 1)
    ensures (n + 1) % INDEX_STEP != 0 ==> IndexOk(idx, n + 1)
  {
  }

  /** The file holds the header and the entries so far, and the index is up to date. */
  ghost predicate FileOk(header: seq<U8>, file: seq<U8>, es: seq<Entry>, n: nat, idx: seq<nat>) {
    |header| == HEADER_SIZE && file == header + Bytes(es) && n == |es| && IndexOk(idx, n)
  }

  lemma {:induction false} FileAdd(header: seq<U8>, file: seq<U8>, es: seq<Entry>, n: nat, idx: seq<nat>, e: Entry)
    requires FileOk(header, file, es, n, idx)
    ensures var idx' := if (n + 1) % INDEX_STEP == 0 then idx + [|file|] else idx;
      FileOk(header, file + Encode(e), es + [e], n + 1, idx')
  {
    hide IndexOk, Bytes, Encode;
    BytesSnoc(es, e);
    IndexStep(idx, n);
    assert header + Bytes(es) + Encode(e) == header + (Bytes(es) + Encode(e));
  }

  // ----- Lists of records -----

  lemma {:induction false} NoDupAdd(rs: seq<AnnotateData>, r: AnnotateData)
    requires Distinct(rs) && r !in rs
    ensures Distinct(rs + [r])
  {
  }
}
