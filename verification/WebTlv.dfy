/** applets/web.c, the TLV storage of the web applets: a fixed byte array holding a
    header and a run of (type, size, padding, data) records, searched and
    overwritten in place.  It stands for a finite map from types to values. */
module WebTlv {
  import opened Options

  type byte = b: int | 0 <= b < 256
  type u16 = w: int | 0 <= w < 0x1_0000

  const SIZE := 0x2000      // sizeof(storage->data)
  const HEADER := 8         // sizeof(WebArgHeader)
  const TLV := 8            // sizeof(WebArgTLV)

  datatype Result = Ok | BadInput | NotFound

  // ---------------------------------------------------------------- specification

  /** A size is a u16. */
  type Value = v: seq<byte> | |v| < 0x1_0000

  datatype Entry = Entry(tag: u16, value: Value)

  function Zeros(n: nat): seq<byte> { seq(n, _ => 0) }

  /** A WebArgTLV with zero padding. */
  function Head(tag: u16, size: u16): (h: seq<byte>)
    ensures |h| == TLV
  {
    [tag % 256, tag / 256, size % 256, size / 256, 0, 0, 0, 0]
  }

  function EncodeEntry(e: Entry): seq<byte> { Head(e.tag, |e.value|) + e.value }

  function Encode(entries: seq<Entry>): seq<byte> {
    if entries == [] then [] else EncodeEntry(entries[0]) + Encode(entries[1..])
  }

  predicate Distinct(entries: seq<Entry>) {
    && (forall i :: 0 <= i < |entries| ==> entries[i].tag != 0)
    && forall i, j :: 0 <= i < j < |entries| ==> entries[i].tag != entries[j].tag
  }

  /** The little-endian u16 at offset o. */
  function U16(d: seq<byte>, o: nat): u16
    requires o + 2 <= |d|
  {
    (d[o] as int) + 256 * (d[o + 1] as int)
  }

  /** The bytes d hold the entries: counted in the header, laid out one after the
      other, of distinct non-zero types. */
  ghost predicate Holds(d: seq<byte>, entries: seq<Entry>) {
    && |d| == SIZE && Distinct(entries)
    && U16(d, 0) == |entries|
    && HEADER + |Encode(entries)| <= SIZE
    && d[HEADER..HEADER + |Encode(entries)|] == Encode(entries)
  }

  /** The same, with nothing but zeros behind the last entry. */
  ghost predicate Represents(d: seq<byte>, entries: seq<Entry>) {
    && |d| == SIZE && Distinct(entries)
    && U16(d, 0) == |entries|
    && HEADER + |Encode(entries)| <= SIZE
    && d[HEADER..] == Encode(entries) + Zeros(SIZE - HEADER - |Encode(entries)|)
  }

  lemma RepresentsHolds(d: seq<byte>, entries: seq<Entry>)
    requires Represents(d, entries)
    ensures Holds(d, entries)
  {
    var n := |Encode(entries)|;
    assert d[HEADER..HEADER + n] == d[HEADER..][..n];
  }

  lemma HoldsRepresents(d: seq<byte>, entries: seq<Entry>)
    requires Holds(d, entries)
    ensures Represents(d, entries) <==> forall k :: HEADER + |Encode(entries)| <= k < SIZE ==> d[k] == 0
  {
    var n := |Encode(entries)|;
    assert d[HEADER..][..n] == d[HEADER..HEADER + n];
    if Represents(d, entries) {
      forall k | HEADER + n <= k < SIZE ensures d[k] == 0 {
        assert d[k] == d[HEADER..][k - HEADER];
      }
    }
    assert d[HEADER..] == d[HEADER..][..n] + d[HEADER..][n..];
    if forall k :: HEADER + n <= k < SIZE ==> d[k] == 0 {
      assert d[HEADER..][n..] == Zeros(SIZE - HEADER - n);
    }
  }

  /** Where entry i starts. */
  function Offset(entries: seq<Entry>, i: nat): nat
    requires i <= |entries|
  {
    HEADER + |Encode(entries[..i])|
  }

  lemma {:induction false} EncodeSplit(entries: seq<Entry>, i: nat)
    requires i < |entries|
    ensures Encode(entries) == Encode(entries[..i]) + EncodeEntry(entries[i]) + Encode(entries[i + 1..])
  {
    if i == 0 {
      assert entries[..0] == [];
    } else {
      EncodeSplit(entries[1..], i - 1);
      assert entries[1..][..i - 1] == entries[..i][1..];
      assert entries[1..][i..] == entries[i + 1..];
    }
  }

  lemma OffsetNext(entries: seq<Entry>, i: nat)
    requires i < |entries|
    ensures Offset(entries, i + 1) == Offset(entries, i) + TLV + |entries[i].value| <= HEADER + |Encode(entries)|
  {
    EncodeSplit(entries, i);
    EncodeSplit(entries[..i + 1], i);
    assert entries[..i + 1][..i] == entries[..i];
  }

  /** The bytes that the records take. */
  function Used(entries: seq<Entry>): nat {
    if entries == [] then 0 else TLV + |entries[0].value| + Used(entries[1..])
  }

  lemma {:induction false} EncodeLength(entries: seq<Entry>)
    ensures |Encode(entries)| == Used(entries) >= TLV * |entries|
  {
    if entries != [] {
      EncodeLength(entries[1..]);
    }
  }

  lemma HeadFields(d: seq<byte>, o: nat, tag: u16, size: u16)
    requires o + TLV <= |d| && d[o..o + TLV] == Head(tag, size)
    ensures U16(d, o) == tag && U16(d, o + 2) == size
  {
    var h := d[o..o + TLV];
    assert d[o] == h[0] && d[o + 1] == h[1] && d[o + 2] == h[2] && d[o + 3] == h[3];
  }

  /** Entry i can be read off the bytes at its offset. */
  lemma EntryAt(d: seq<byte>, entries: seq<Entry>, i: nat)
    requires Holds(d, entries) && i < |entries|
    ensures var o := Offset(entries, i);
      && o + TLV + |entries[i].value| <= SIZE
      && U16(d, o) == entries[i].tag && U16(d, o + 2) == |entries[i].value|
      && d[o + TLV..o + TLV + |entries[i].value|] == entries[i].value
      && Offset(entries, i + 1) == o + TLV + |entries[i].value|
  {
    EncodeSplit(entries, i);
    OffsetNext(entries, i);
    var before, head, value := Encode(entries[..i]), Head(entries[i].tag, |entries[i].value|), entries[i].value;
    var o, body := HEADER + |before|, Encode(entries);
    hide Encode, Distinct;
    assert body[|before|..|before| + TLV] == head;
    assert body[|before| + TLV..|before| + TLV + |value|] == value;
    PartOf(d, HEADER, body, |before|, |before| + TLV);
    PartOf(d, HEADER, body, |before| + TLV, |before| + TLV + |value|);
    HeadFields(d, o, entries[i].tag, |value|);
  }

  lemma PartOf(d: seq<byte>, at: nat, body: seq<byte>, i: nat, j: nat)
    requires at + |body| <= |d| && d[at..at + |body|] == body && i <= j <= |body|
    ensures d[at + i..at + j] == body[i..j]
  {
    forall k | 0 <= k < j - i ensures d[at + i..at + j][k] == body[i..j][k] {
      assert d[at..at + |body|][i + k] == d[at + i + k];
    }
  }

  /** Behind the last entry the type reads as 0. */
  lemma TailAt(d: seq<byte>, entries: seq<Entry>)
    requires Represents(d, entries) && HEADER + |Encode(entries)| + TLV <= SIZE
    ensures U16(d, HEADER + |Encode(entries)|) == 0
  {
    var o := HEADER + |Encode(entries)|;
    assert d[o] == d[HEADER..][o - HEADER] && d[o + 1] == d[HEADER..][o + 1 - HEADER];
  }

  /** The first entry with the given type, and the number of entries if none. */
  function Find(entries: seq<Entry>, tag: u16): (i: nat)
    ensures i <= |entries| && (i < |entries| ==> entries[i].tag == tag)
    ensures forall j :: 0 <= j < i ==> entries[j].tag != tag
  {
    if entries == [] || entries[0].tag == tag then 0 else 1 + Find(entries[1..], tag)
  }

  /** The data as stored: cut to the declared size, or padded with zeros to it. */
  function Padded(arg: seq<byte>, size: nat, total: u16): (v: seq<byte>)
    requires (if size > total then total else size) <= |arg|
    ensures |v| == total
  {
    var n := if size > total then total else size;
    arg[..n] + Zeros(total - n)
  }

  function Lookup(entries: seq<Entry>, tag: u16): Option<Value> {
    var i := Find(entries, tag);
    if i < |entries| then Some(entries[i].value) else None
  }

  /** The entries after a write, and None for a refused one. */
  function Written(entries: seq<Entry>, tag: u16, value: Value): Option<seq<Entry>>
  {
    var i := Find(entries, tag);
    if i < |entries| then
      if |entries[i].value| == |value| then Some(entries[i := Entry(tag, value)]) else None
    else
      if HEADER + |Encode(entries)| + TLV + |value| <= SIZE then Some(entries + [Entry(tag, value)]) else None
  }

  // ---------------------------------------------------------------- effect of the byte updates

  /** Overwriting a range of a sequence. */
  function Patch(d: seq<byte>, o: nat, v: seq<byte>): (r: seq<byte>)
    requires o + |v| <= |d|
    ensures |r| == |d|
  {
    d[..o] + v + d[o + |v|..]
  }

  lemma PatchMiddle(d: seq<byte>, front: seq<byte>, middle: seq<byte>, back: seq<byte>, v: seq<byte>)
    requires |d| >= HEADER && d[HEADER..] == front + middle + back && |middle| == |v|
    ensures Patch(d, HEADER + |front|, v)[HEADER..] == front + v + back
    ensures U16(Patch(d, HEADER + |front|, v), 0) == U16(d, 0)
  {
  }

  /** The encoding of entries that differ only in the value of entry i. */
  lemma EncodeUpdate(entries: seq<Entry>, i: nat, value: Value)
    requires i < |entries| && |value| == |entries[i].value|
    ensures var front := Encode(entries[..i]) + Head(entries[i].tag, |value|);
      && Encode(entries) == front + entries[i].value + Encode(entries[i + 1..])
      && Encode(entries[i := Entry(entries[i].tag, value)]) == front + value + Encode(entries[i + 1..])
      && |front| == Offset(entries, i) + TLV - HEADER
  {
    var es := entries[i := Entry(entries[i].tag, value)];
    EncodeSplit(entries, i);
    EncodeSplit(es, i);
    assert es[..i] == entries[..i] && es[i + 1..] == entries[i + 1..];
  }

  lemma DistinctUpdate(entries: seq<Entry>, i: nat, value: Value)
    requires Distinct(entries) && i < |entries|
    ensures Distinct(entries[i := Entry(entries[i].tag, value)])
  {
  }

  lemma PatchValue(d: seq<byte>, entries: seq<Entry>, i: nat, value: Value)
    requires Represents(d, entries) && i < |entries| && |value| == |entries[i].value|
    ensures Offset(entries, i) + TLV + |value| <= SIZE
    ensures Represents(Patch(d, Offset(entries, i) + TLV, value), entries[i := Entry(entries[i].tag, value)])
  {
    OffsetNext(entries, i);
    EncodeUpdate(entries, i, value);
    DistinctUpdate(entries, i, value);
    var front := Encode(entries[..i]) + Head(entries[i].tag, |value|);
    var rest, zeros := Encode(entries[i + 1..]), Zeros(SIZE - HEADER - |Encode(entries)|);
    Regroup(front, entries[i].value, rest, zeros);
    PatchMiddle(d, front, entries[i].value, rest + zeros, value);
    Regroup(front, value, rest, zeros);
  }

  lemma Regroup(a: seq<byte>, b: seq<byte>, c: seq<byte>, e: seq<byte>)
    ensures (a + b + c) + e == a + b + (c + e)
  {
  }

  /** The record head written behind the last entry, and its data after it. */
  lemma PatchAppend(d: seq<byte>, entries: seq<Entry>, e: Entry, d': seq<byte>)
    requires Represents(d, entries) && e.tag != 0 && Find(entries, e.tag) == |entries|
    requires HEADER + |Encode(entries)| + TLV + |e.value| <= SIZE
    requires |d'| == SIZE && U16(d', 0) == |entries| + 1
    requires d'[HEADER..] == Patch(d[HEADER..], |Encode(entries)|, EncodeEntry(e))
    ensures Represents(d', entries + [e])
  {
    var es := entries + [e];
    EncodeSplit(es, |entries|);
    assert es[..|entries|] == entries && es[|entries| + 1..] == [];
    assert Encode(es) == Encode(entries) + EncodeEntry(e);
    assert Distinct(es);
    var n := SIZE - HEADER - |Encode(entries)|;
    assert Zeros(n) == Zeros(|EncodeEntry(e)|) + Zeros(n - |EncodeEntry(e)|);
    assert d[HEADER..] == Encode(entries) + Zeros(|EncodeEntry(e)|) + Zeros(n - |EncodeEntry(e)|);
    assert d'[HEADER..] == Encode(entries) + EncodeEntry(e) + Zeros(n - |EncodeEntry(e)|);
  }

  lemma PatchAt(d: seq<byte>, o: nat, v: seq<byte>, k: nat)
    requires o + |v| <= |d| && k < |d|
    ensures Patch(d, o, v)[k] == if o <= k < o + |v| then v[k - o] else d[k]
  {
  }

  /** d' is d with v written at o. */
  ghost predicate Overwrites(d: seq<byte>, d': seq<byte>, o: nat, v: seq<byte>) {
    |d'| == |d| && forall k :: 0 <= k < |d| ==> d'[k] == if o <= k < o + |v| then v[k - o] else d[k]
  }

  /** d' is d with a new record at o, all but its padding, and a new entry count. */
  ghost predicate Appends(d: seq<byte>, d': seq<byte>, o: nat, count: u16, e: Entry) {
    && |d'| == |d| >= 2 && U16(d', 0) == count
    && forall k :: 2 <= k < |d| ==>
         d'[k] == if o <= k < o + 4 then Head(e.tag, |e.value|)[k - o]
                  else if o + TLV <= k < o + TLV + |e.value| then e.value[k - o - TLV] else d[k]
  }

  /** On zero padding that amounts to the encoding of the record. */
  lemma AppendBody(d: seq<byte>, d': seq<byte>, o: nat, count: u16, e: Entry)
    requires HEADER <= o && o + TLV + |e.value| <= |d| && Appends(d, d', o, count, e)
    requires forall k :: o + 4 <= k < o + TLV ==> d[k] == 0
    ensures d'[HEADER..] == Patch(d[HEADER..], o - HEADER, EncodeEntry(e))
  {
    var body, code := d[HEADER..], EncodeEntry(e);
    forall k: nat | k < |body| ensures d'[HEADER..][k] == Patch(body, o - HEADER, code)[k] {
      PatchAt(body, o - HEADER, code, k);
      assert d'[HEADER..][k] == d'[HEADER + k];
    }
  }

  lemma AppendRepresents(d: seq<byte>, entries: seq<Entry>, e: Entry, d': seq<byte>)
    requires Represents(d, entries) && e.tag != 0 && Find(entries, e.tag) == |entries| && |entries| < 0xFFFF
    requires HEADER + |Encode(entries)| + TLV + |e.value| <= SIZE
    requires Appends(d, d', HEADER + |Encode(entries)|, |entries| + 1, e)
    ensures Represents(d', entries + [e])
  {
    var o := HEADER + |Encode(entries)|;
    forall k | o + 4 <= k < o + TLV ensures d[k] == 0 {
      assert d[k] == d[HEADER..][k - HEADER];
    }
    AppendBody(d, d', o, |entries| + 1, e);
    PatchAppend(d, entries, e, d');
  }

  lemma SliceOfSlice(d: seq<byte>, o: nat, n: nat, m: nat)
    requires n <= m && o + m <= |d|
    ensures d[o..o + n] == d[o..o + m][..n]
  {
  }

  /** Where a search ends: at the record of the wanted type, or behind the last one. */
  ghost predicate Ends(d: seq<byte>, entries: seq<Entry>, tag: u16, i: nat, o: nat) {
    && |d| == SIZE && i == Find(entries, tag) && o == Offset(entries, i)
    && (i < |entries| ==>
         && o + TLV + |entries[i].value| <= SIZE
         && U16(d, o) == tag && U16(d, o + 2) == |entries[i].value|
         && d[o + TLV..o + TLV + |entries[i].value|] == entries[i].value)
    && (i == |entries| ==> o == HEADER + |Encode(entries)|)
  }

  /** What a write of a value does to well-formed storage.  Type 0 reads as present on
      the zero tail: its value is put there without a record, and the storage stays
      well-formed only if the value is all zeros. */
  ghost predicate Outcome(d: seq<byte>, entries: seq<Entry>, tag: u16, value: Value, rc: Result, d': seq<byte>, entries': seq<Entry>) {
    if tag == 0 then
      && entries' == entries && Holds(d', entries)
      && rc == (if HEADER + |Encode(entries)| + TLV + |value| <= SIZE then Ok else BadInput)
      && (rc == Ok ==> (Represents(d', entries) <==> forall k :: 0 <= k < |value| ==> value[k] == 0))
    else
      && Represents(d', entries')
      && match Written(entries, tag, value)
         case Some(es) => rc == Ok && entries' == es
         case None => rc == BadInput && entries' == entries
  }

  /** The writes that are accepted: of a present type with the size it has, and of a new
      one whose record fits beside the others. */
  predicate Accepts(entries: seq<Entry>, tag: u16, total: u16) {
    match Lookup(entries, tag)
    case Some(v) => |v| == total
    case None => HEADER + Used(entries) + TLV + total <= SIZE
  }

  lemma OutcomeAccepts(d: seq<byte>, entries: seq<Entry>, tag: u16, value: Value, rc: Result, d': seq<byte>, entries': seq<Entry>)
    requires Represents(d, entries) && Outcome(d, entries, tag, value, rc, d', entries')
    ensures rc == Ok <==> Accepts(entries, tag, |value|)
  {
    EncodeLength(entries);
    assert tag == 0 ==> Find(entries, tag) == |entries|;
    hide Represents, Holds, Encode, Used;
  }

  lemma Refused(d: seq<byte>, entries: seq<Entry>, tag: u16, value: Value, i: nat, o: nat)
    requires Represents(d, entries) && Ends(d, entries, tag, i, o)
    requires (i < |entries| && U16(d, o + 2) != |value|) || SIZE < o + TLV + |value|
    ensures Outcome(d, entries, tag, value, BadInput, d, entries)
  {
    RepresentsHolds(d, entries);
    hide Encode;
  }

  lemma NeverFull(d: seq<byte>, entries: seq<Entry>, tag: u16, value: Value)
    requires Represents(d, entries)
    ensures |entries| < 0xFFFF
  {
    EncodeLength(entries);
  }

  lemma KeepsShim(d: seq<byte>, d': seq<byte>, o: nat, e: Entry)
    requires HEADER <= o && |d| >= HEADER && exists count :: Appends(d, d', o, count, e)
    ensures |d'| == |d| && forall k :: 2 <= k < HEADER ==> d'[k] == d[k]
  {
  }

  lemma KeepsHeader(d: seq<byte>, d': seq<byte>, o: nat, v: seq<byte>)
    requires HEADER <= o && |d| >= HEADER && Overwrites(d, d', o, v)
    ensures |d'| == |d| && forall k :: 0 <= k < HEADER ==> d'[k] == d[k]
  {
  }

  /** The type at the end of the search is another one: a new record was made. */
  lemma NewRecord(d: seq<byte>, entries: seq<Entry>, tag: u16, value: Value, i: nat, o: nat, d': seq<byte>)
    requires Represents(d, entries) && |entries| < 0xFFFF
    requires Ends(d, entries, tag, i, o) && o + TLV + |value| <= SIZE && U16(d, o) != tag
    requires Appends(d, d', o, |entries| + 1, Entry(tag, value))
    ensures Outcome(d, entries, tag, value, Ok, d', entries + [Entry(tag, value)])
  {
    if i == |entries| {
      TailAt(d, entries);
    }
    AppendRepresents(d, entries, Entry(tag, value), d');
  }

  /** It is the wanted one: its value was overwritten. */
  lemma SameRecord(d: seq<byte>, entries: seq<Entry>, tag: u16, value: Value, i: nat, o: nat, d': seq<byte>)
    requires Represents(d, entries) && Ends(d, entries, tag, i, o) && o + TLV + |value| <= SIZE && U16(d, o) == tag
    requires i < |entries| ==> U16(d, o + 2) == |value|
    requires Overwrites(d, d', o + TLV, value)
    ensures tag != 0 ==> i < |entries|
    ensures Outcome(d, entries, tag, value, Ok, d', if tag == 0 then entries else entries[i := Entry(tag, value)])
  {
    if tag == 0 {
      NoRecord(d, entries, value, i, o, d');
    } else {
      if i == |entries| {
        TailAt(d, entries);
      }
      PatchValue(d, entries, i, value);
      hide Represents, Encode, Distinct;
      OverwriteIsPatch(d, d', o + TLV, value);
    }
  }

  lemma OverwriteIsPatch(d: seq<byte>, d': seq<byte>, o: nat, v: seq<byte>)
    requires o + |v| <= |d| && Overwrites(d, d', o, v)
    ensures d' == Patch(d, o, v)
  {
    forall k: nat | k < |d| ensures d'[k] == Patch(d, o, v)[k] {
      PatchAt(d, o, v, k);
    }
  }

  /** A write of type 0 finds its type on the zero tail, and puts the value there
      without a record. */
  lemma NoRecord(d: seq<byte>, entries: seq<Entry>, value: Value, i: nat, o: nat, d': seq<byte>)
    requires Represents(d, entries) && Ends(d, entries, 0, i, o) && o + TLV + |value| <= SIZE
    requires Overwrites(d, d', o + TLV, value)
    ensures i == |entries| && U16(d, o) == 0 && Holds(d', entries)
    ensures Represents(d', entries) <==> forall k :: 0 <= k < |value| ==> value[k] == 0
  {
    var n := |Encode(entries)|;
    TailAt(d, entries);
    RepresentsHolds(d, entries);
    HoldsRepresents(d, entries);
    assert d'[HEADER..HEADER + n] == d[HEADER..HEADER + n];
    HoldsRepresents(d', entries);
    assert forall k :: 0 <= k < |value| ==> d'[o + TLV + k] == value[k];
  }

  // ---------------------------------------------------------------- the storage

  class Storage {
    const data: array<byte>
    ghost var entries: seq<Entry>

    /** Storage written by this code; a reply storage may hold any bytes. */
    ghost predicate Valid()
      reads this, data
    {
      Represents(data[..], entries)
    }

    /** The same, whatever lies behind the last record. */
    ghost predicate Readable()
      reads this, data
    {
      Holds(data[..], entries)
    }

    /** Zeroed storage with the shim kind in the header. */
    constructor (shimKind: seq<byte>)
      requires |shimKind| == 4
      ensures Valid() && entries == [] && data.Length == SIZE && data[4..8] == shimKind && fresh(data)
    {
      data := new byte[SIZE](i => if 4 <= i < 8 then shimKind[i - 4] else 0);
      entries := [];
      new;
      assert data[..][HEADER..] == Zeros(SIZE - HEADER);
    }

    function At16(o: nat): (w: u16)
      requires o + 2 <= data.Length
      reads data
      ensures w == U16(data[..], o)
    {
      (data[o] as int) + 256 * (data[o + 1] as int)
    }

    method Set16(o: nat, w: u16)
      requires o + 2 <= data.Length
      modifies data
      ensures data[o] == w % 256 && data[o + 1] == w / 256
      ensures forall k :: 0 <= k < data.Length && k != o && k != o + 1 ==> data[k] == old(data[k])
    {
      data[o] := w % 256;
      data[o + 1] := w / 256;
    }

    /** memcpy into the storage */
    method CopyIn(o: nat, v: seq<byte>)
      requires o + |v| <= data.Length
      modifies data
      ensures forall k :: 0 <= k < data.Length ==> data[k] == if o <= k < o + |v| then v[k - o] else old(data[k])
    {
      for n := 0 to |v|
        invariant forall k :: 0 <= k < data.Length ==> data[k] == if o <= k < o + n then v[k - o] else old(data[k])
      {
        data[o + n] := v[n];
      }
    }

    /** The search loop of the three operations: i counts the records passed; fits is
        false if a record runs over the end of the storage. */
    method Scan(tag: u16) returns (i: nat, offset: nat, fits: bool)
      requires data.Length == SIZE
      ensures i <= At16(0) && HEADER <= offset
      ensures fits && i < At16(0) ==> offset + TLV <= SIZE && At16(offset) == tag
      ensures Readable() ==> fits && Ends(data[..], entries, tag, i, offset)
    {
      i, offset, fits := 0, HEADER, true;
      if Readable() {
        assert entries[..0] == [];
      }
      while i < At16(0)
        invariant i <= At16(0) && HEADER <= offset <= SIZE
        invariant Readable() ==> offset == Offset(entries, i) && forall j :: 0 <= j < i ==> entries[j].tag != tag
      {
        if Readable() {
          EntryAt(data[..], entries, i);
        }
        if SIZE < offset + TLV {
          return i, offset, false;
        }
        if At16(offset) == tag {
          if Readable() {
            FindAt(entries, tag, i);
            SearchEnds(data[..], entries, tag, i);
          }
          return;
        }
        offset := offset + TLV + At16(offset + 2);
        if SIZE < offset {
          return i, offset, false;
        }
        i := i + 1;
      }
      if Readable() {
        FindAt(entries, tag, i);
        SearchEnds(data[..], entries, tag, i);
      }
    }
  
    /** The memcpy and memset of a value. */
    method PutValue(o: nat, arg: seq<byte>, n: nat, total: u16)
      requires n <= |arg| && n <= total && o + total <= data.Length
      modifies data
      ensures Overwrites(old(data[..]), data[..], o, arg[..n] + Zeros(total - n))
    {
      CopyIn(o, arg[..n]);
      if total != n {
        CopyIn(o + n, Zeros(total - n));
      }
    }

    /** A new record: its type and size, one more in the header, its value. */
    method PutRecord(o: nat, tag: u16, arg: seq<byte>, n: nat, total: u16)
      requires n <= |arg| && n <= total && HEADER <= o && o + TLV + total <= data.Length && At16(0) < 0xFFFF
      modifies data
      ensures Appends(old(data[..]), data[..], o, U16(old(data[..]), 0) + 1, Entry(tag, arg[..n] + Zeros(total - n)))
    {
      Set16(o, tag);
      Set16(o + 2, total);
      Set16(0, At16(0) + 1);
      PutValue(o + TLV, arg, n, total);
    }

    /** _webTLVWrite: argdata_size bytes of arg, cut or padded to argdata_size_total. */
    method Write(tag: u16, arg: seq<byte>, size: u16, total: u16) returns (rc: Result)
      requires data.Length == SIZE && (if size > total then total else size) <= |arg|
      modifies this, data
      ensures rc != Ok ==> data[..] == old(data[..]) && entries == old(entries)
      ensures forall k :: 2 <= k < HEADER ==> data[k] == old(data[k])
      ensures old(Valid()) ==> (rc == Ok <==> Accepts(old(entries), tag, total))
      ensures old(Valid()) ==> Outcome(old(data[..]), old(entries), tag, Padded(arg, size, total), rc, data[..], entries)
    {
      hide Represents, Outcome, Ends, Encode, Distinct, Overwrites, Appends, Accepts;
      var n := if size > total then total else size;
      ghost var d, value := data[..], Padded(arg, size, total);
      if Valid() {
        RepresentsHolds(d, entries);
      }
      var i, offset, fits := Scan(tag);
      if !fits || (i < At16(0) && At16(offset + 2) != total) || SIZE < offset + TLV + total {
        if Valid() {
          Refused(d, entries, tag, value, i, offset);
          OutcomeAccepts(d, entries, tag, value, BadInput, data[..], entries);
        }
        return BadInput;
      }
      if At16(offset) != tag {
        if At16(0) == 0xFFFF {
          if Valid() {
            NeverFull(d, entries, tag, value);
          }
          return BadInput;
        }
        PutRecord(offset, tag, arg, n, total);
        KeepsShim(d, data[..], offset, Entry(tag, value));
        if old(Valid()) {
          NewRecord(d, old(entries), tag, value, i, offset, data[..]);
          entries := old(entries) + [Entry(tag, value)];
        }
      } else {
        PutValue(offset + TLV, arg, n, total);
        KeepsHeader(d, data[..], offset + TLV, value);
        if old(Valid()) {
          SameRecord(d, old(entries), tag, value, i, offset, data[..]);
          entries := if tag == 0 then entries else entries[i := Entry(tag, value)];
        }
      }
      if old(Valid()) {
        OutcomeAccepts(d, old(entries), tag, value, Ok, data[..], entries);
      }
      return Ok;
    }

    /** _webTLVRead */
    method Read(tag: u16, size: u16) returns (rc: Result, arg: seq<byte>)
      requires data.Length == SIZE
      ensures rc == Ok ==> |arg| == size
      ensures Readable() ==> (rc, arg) == match Lookup(entries, tag)
                                       case None => (NotFound, [])
                                       case Some(v) => if |v| == size then (Ok, v) else (BadInput, [])
    {
      var i, offset, fits := Scan(tag);
      if !fits || (i < At16(0) && At16(offset + 2) != size) {
        return BadInput, [];
      }
      if i == At16(0) {
        return NotFound, [];
      }
      if SIZE < offset + TLV + size {
        return BadInput, [];
      }
      return Ok, data[offset + TLV..offset + TLV + size];
    }

    /** _webTLVReadVarSize: as much as there is, up to `size` bytes. */
    method ReadVarSize(tag: u16, size: nat) returns (rc: Result, arg: seq<byte>)
      requires data.Length == SIZE
      ensures rc == Ok ==> |arg| <= size
      ensures Readable() ==> (rc, arg) == match Lookup(entries, tag)
                                       case None => (NotFound, [])
                                       case Some(v) => (Ok, if size > |v| then v else v[..size])
    {
      var i, offset, fits := Scan(tag);
      if !fits {
        return BadInput, [];
      }
      if i == At16(0) {
        return NotFound, [];
      }
      var n := if size > At16(offset + 2) then At16(offset + 2) else size;
      if SIZE < offset + TLV + n {
        return BadInput, [];
      }
      arg := data[offset + TLV..offset + TLV + n];
      if Readable() {
        SliceOfSlice(data[..], offset + TLV, n, |entries[i].value|);
      }
      return Ok, arg;
    }

    /** _webConfigSetString; `str` is the text before the terminating NUL. */
    method SetString(tag: u16, str: seq<byte>, total: u16) returns (rc: Result)
      requires data.Length == SIZE
      modifies this, data
      ensures old(Valid()) ==> Outcome(old(data[..]), old(entries), tag, StoredString(str, total), rc, data[..], entries)
    {
      hide Outcome;
      var arglen: u16 := |str| % 0x1_0000;
      if arglen >= total {
        arglen := if total == 0 then 0xFFFF else total - 1;
      }
      rc := Write(tag, str + [0], arglen, total);
    }
  }

  /** The value that SetString stores. */
  function StoredString(str: seq<byte>, total: u16): (v: seq<byte>)
    ensures |v| == total
  {
    var arglen: u16 := |str| % 0x1_0000;
    if total == 0 then [] else Padded(str + [0], if arglen >= total then total - 1 else arglen, total)
  }

  /** What a C reader of the value sees: the bytes before the first NUL. */
  function CString(v: seq<byte>): seq<byte> {
    if v == [] || v[0] == 0 then [] else [v[0]] + CString(v[1..])
  }

  lemma SearchEnds(d: seq<byte>, entries: seq<Entry>, tag: u16, i: nat)
    requires Holds(d, entries) && i == Find(entries, tag)
    ensures Ends(d, entries, tag, i, Offset(entries, i))
  {
    if i < |entries| {
      EntryAt(d, entries, i);
    } else {
      assert entries[..i] == entries;
    }
  }

  lemma {:induction false} FindAt(entries: seq<Entry>, tag: u16, i: nat)
    requires i <= |entries| && forall j :: 0 <= j < i ==> entries[j].tag != tag
    requires i == |entries| || entries[i].tag == tag
    ensures Find(entries, tag) == i
  {
    if i > 0 {
      FindAt(entries[1..], tag, i - 1);
    }
  }

  // ---------------------------------------------------------------- the layout

  /** Where record i starts: 8 bytes of header, and 8 more in front of each value. */
  function RecordStart(entries: seq<Entry>, i: nat): nat
    requires i <= |entries|
  {
    if i == 0 then 8 else RecordStart(entries, i - 1) + 8 + |entries[i - 1].value|
  }

  lemma {:induction false} RecordStartIs(entries: seq<Entry>, i: nat)
    requires i <= |entries|
    ensures RecordStart(entries, i) == Offset(entries, i)
  {
    if i == 0 {
      assert entries[..0] == [];
    } else {
      RecordStartIs(entries, i - 1);
      OffsetNext(entries, i - 1);
    }
  }

  /** The storage byte by byte: the number of records first, and each record as its type,
      its size, four bytes of padding and its value, numbers with their low byte first. */
  lemma RecordLayout(d: seq<byte>, entries: seq<Entry>, i: nat)
    requires Holds(d, entries) && i < |entries|
    ensures |d| == 0x2000 && d[0] as int + 256 * (d[1] as int) == |entries|
    ensures var o, v := RecordStart(entries, i), entries[i].value;
      && o + 8 + |v| <= 0x2000
      && d[o] as int + 256 * (d[o + 1] as int) == entries[i].tag && d[o + 2] as int + 256 * (d[o + 3] as int) == |v|
      && d[o + 8..o + 8 + |v|] == v
  {
    hide Holds, Encode;
    HoldsCount(d, entries);
    EntryAt(d, entries, i);
    RecordStartIs(entries, i);
  }

  lemma HoldsCount(d: seq<byte>, entries: seq<Entry>)
    requires Holds(d, entries)
    ensures |d| == SIZE && U16(d, 0) == |entries|
  {
  }

  // ---------------------------------------------------------------- the map

  /** The finite map that the entries stand for. */
  ghost function ToMap(entries: seq<Entry>): map<u16, Value> {
    if entries == [] then map[] else ToMap(entries[1..])[entries[0].tag := entries[0].value]
  }

  lemma {:induction false} LookupIsMap(entries: seq<Entry>, tag: u16)
    ensures Lookup(entries, tag) == if tag in ToMap(entries) then Some(ToMap(entries)[tag]) else None
  {
    if entries != [] && entries[0].tag != tag {
      LookupIsMap(entries[1..], tag);
    }
  }

  /** After a successful write a read of its type finds the new value, and a read of
      any other type finds what it found before. */
  lemma WrittenLookup(entries: seq<Entry>, tag: u16, value: Value, t: u16)
    requires Written(entries, tag, value).Some?
    ensures Lookup(Written(entries, tag, value).value, t) == if t == tag then Some(value) else Lookup(entries, t)
  {
    var es, i, j := Written(entries, tag, value).value, Find(entries, tag), Find(entries, t);
    FindAt(es, t, if j < |entries| || t == tag then j else |es|);
  }

  /** After a write that reported success, a read of the type finds the value exactly if
      the type is not 0, and a read of another type finds what it found before. */
  lemma WriteReadsBackIff(d: seq<byte>, entries: seq<Entry>, tag: u16, value: Value, d': seq<byte>, entries': seq<Entry>, t: u16)
    requires Represents(d, entries) && Outcome(d, entries, tag, value, Ok, d', entries')
    ensures Holds(d', entries')
    ensures Lookup(entries', tag) == Some(value) <==> tag != 0
    ensures t != tag ==> Lookup(entries', t) == Lookup(entries, t)
  {
    if tag != 0 {
      RepresentsHolds(d', entries');
      WrittenLookup(entries, tag, value, tag);
      WrittenLookup(entries, tag, value, t);
    }
  }

  /** A successful write is a map update, and keeps the types distinct. */
  lemma WrittenIsMapUpdate(entries: seq<Entry>, tag: u16, value: Value)
    requires Distinct(entries) && tag != 0 && Written(entries, tag, value).Some?
    ensures Distinct(Written(entries, tag, value).value)
    ensures ToMap(Written(entries, tag, value).value) == ToMap(entries)[tag := value]
  {
    var es := Written(entries, tag, value).value;
    forall t: u16 ensures t in ToMap(es) <==> t in ToMap(entries)[tag := value]
      ensures t in ToMap(es) ==> ToMap(es)[t] == ToMap(entries)[tag := value][t]
    {
      LookupIsMap(entries, t);
      LookupIsMap(es, t);
      WrittenLookup(entries, tag, value, t);
    }
  }

  // ---------------------------------------------------------------- strings

  lemma {:induction false} CStringPrefix(s: seq<byte>, n: nat)
    requires forall k :: 0 <= k < |s| ==> s[k] != 0
    ensures CString(s + Zeros(n)) == s
  {
    if s != [] {
      assert (s + Zeros(n))[1..] == s[1..] + Zeros(n);
      CStringPrefix(s[1..], n);
    }
  }

  /** A stored string is always terminated, and reads back whole iff it is shorter
      than the declared size. */
  lemma StringReadsBackIff(str: seq<byte>, total: u16)
    requires total > 0 && forall k :: 0 <= k < |str| ==> str[k] != 0
    ensures 0 in StoredString(str, total)
    ensures CString(StoredString(str, total)) == str <==> |str| < total
  {
    var arglen: u16 := |str| % 0x1_0000;
    var n := if arglen >= total then total - 1 else arglen;
    StoredShape(str, total, n);
    CStringPrefix(str[..n], total - n);
    hide CString, StoredString;
    assert (str[..n] + Zeros(total - n))[n] == 0;
    assert |str[..n]| == n && (|str| < total ==> str[..n] == str);
  }

  lemma StoredShape(str: seq<byte>, total: u16, n: nat)
    requires total > 0 && n == if |str| % 0x1_0000 >= total then total - 1 else |str| % 0x1_0000
    ensures n <= |str| && StoredString(str, total) == str[..n] + Zeros(total - n)
  {
    assert (str + [0])[..n] == str[..n];
  }

  /** The shortest string that is cut: its third character gives way to the NUL. */
  lemma LongStringIsCut()
    ensures CString(StoredString([97, 98, 99], 3)) == [97, 98]
  {
    StoredShape([97, 98, 99], 3, 2);
    assert [97, 98, 99][..2] == [97, 98];
    CStringPrefix([97, 98], 1);
  }

  /** A byte of type 0 in fresh storage: the write reports success, and the read does not
      find it. */
  method TypeZeroIsLost() returns (written: Result, found: Result)
    ensures written == Ok && found == NotFound
  {
    var s := new Storage([0, 0, 0, 0]);
    written := s.Write(0, [1], 1, 1);
    var rc, arg := s.Read(0, 1);
    found := rc;
  }
}
