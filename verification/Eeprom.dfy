/**
 * The EEPROM: a write wraps inside its 32-byte page, so longer writes have to
 * be split at page boundaries; and the device record kept there.
 */
module Eeprom {
  import opened Basics

  const PageSize: nat := 32
  const Size: nat := U16   // every 16-bit address

  type addr = u16
  type Cells = m: seq<byte> | |m| == Size witness seq(Size, _ => 0)

  /** How far a lies after start, on a device whose addresses wrap. */
  function From(start: addr, a: addr): nat { (a - start) % Size }

  /** data laid down from start on, all other cells kept. */
  function Stored(m: Cells, start: addr, data: seq<byte>): Cells {
    seq(Size, (a: nat) requires a < Size => if From(start, a) < |data| then data[From(start, a)] else m[a])
  }

  /** Place of a in its page, counted from start's place. */
  function InPage(start: addr, a: addr): nat { (a % PageSize - start % PageSize) % PageSize }

  /** One page write as the device does it: the address counter wraps inside the page. */
  function PageWritten(m: Cells, start: addr, data: seq<byte>): Cells {
    seq(Size, (a: nat) requires a < Size =>
      if a / PageSize == start / PageSize && InPage(start, a) < |data| then data[InPage(start, a)] else m[a])
  }

  /** A sequential read. */
  function Read(m: Cells, start: addr, n: nat): seq<byte> {
    seq(n, (k: nat) requires k < n => m[(start + k) % Size])
  }

  predicate FitsPage(start: nat, n: nat) { start % PageSize + n <= PageSize }

  lemma SameCell(start: addr, a: addr, n: nat)
    requires FitsPage(start, n)
    ensures From(start, a) < n <==> a / PageSize == start / PageSize && InPage(start, a) < n
    ensures From(start, a) < n ==> From(start, a) == InPage(start, a)
  {
    var q, r, p, s := a / PageSize, a % PageSize, start / PageSize, start % PageSize;
    assert a == q * PageSize + r && start == p * PageSize + s;
  }

  /** Inside one page a write goes where it should. */
  lemma PageWriteStores(m: Cells, start: addr, data: seq<byte>)
    requires FitsPage(start, |data|)
    ensures PageWritten(m, start, data) == Stored(m, start, data)
  {
    hide From, InPage;
    var p, s := PageWritten(m, start, data), Stored(m, start, data);
    forall a: nat | a < Size ensures p[a] == s[a] {
      SameCell(start, a, |data|);
    }
  }

  lemma FromMoves(start: addr, n: nat, a: addr)
    requires n <= Size
    ensures From(start, a) >= n ==> From((start + n) % Size, a) == From(start, a) - n
    ensures From(start, a) < n ==> From((start + n) % Size, a) == From(start, a) + Size - n
  {
  }

  /** Writing one chunk after another is writing their concatenation. */
  lemma StoredConcat(m: Cells, start: addr, d: seq<byte>, e: seq<byte>)
    requires |d| + |e| <= Size
    ensures Stored(Stored(m, start, d), (start + |d|) % Size, e) == Stored(m, start, d + e)
  {
    hide From;
    var p, s := Stored(Stored(m, start, d), (start + |d|) % Size, e), Stored(m, start, d + e);
    forall a: nat | a < Size ensures p[a] == s[a] {
      FromMoves(start, |d|, a);
      FromBound(start, a);
    }
  }

  lemma FromBound(start: addr, a: addr)
    ensures From(start, a) < Size
  {
  }

  /** What was stored is read back, and the rest of the device is untouched. */
  lemma StoredReadsBack(m: Cells, start: addr, data: seq<byte>)
    requires |data| <= Size
    ensures Read(Stored(m, start, data), start, |data|) == data
    ensures forall a: addr | From(start, a) >= |data| :: Stored(m, start, data)[a] == m[a]
  {
    var r := Read(Stored(m, start, data), start, |data|);
    forall k: nat | k < |data| ensures r[k] == data[k] {
      FromOf(start, k);
    }
  }

  lemma FromOf(start: addr, k: nat)
    requires k < Size
    ensures From(start, (start + k) % Size) == k
  {
  }

  lemma NothingStored(m: Cells, start: addr)
    ensures Stored(m, start, []) == m
  {
  }

  /** The next byte of a page write goes to the next place of the page, round and round. */
  lemma PageCell(m: Cells, start: addr, data: seq<byte>, k: nat, a: nat)
    requires k < |data| <= PageSize && a == PageSize * (start / PageSize) + (start % PageSize + k) % PageSize
    ensures a < Size && PageWritten(m, start, data[..k])[a := data[k]] == PageWritten(m, start, data[..k + 1])
  {
    PlaceOf(start, k, a);
    hide InPage;
    var p, q := PageWritten(m, start, data[..k])[a := data[k]], PageWritten(m, start, data[..k + 1]);
    forall b: nat | b < Size ensures p[b] == q[b] {
      if b / PageSize == start / PageSize && InPage(start, b) == k { PlaceUnique(start, a, b); }
    }
  }

  lemma PlaceOf(start: addr, k: nat, a: nat)
    requires k < PageSize && a == PageSize * (start / PageSize) + (start % PageSize + k) % PageSize
    ensures a < Size && a / PageSize == start / PageSize && InPage(start, a) == k
  {
    var r := (start % PageSize + k) % PageSize;
    assert a / PageSize == start / PageSize && a % PageSize == r;
  }

  lemma PlaceUnique(start: addr, a: addr, b: addr)
    requires a / PageSize == b / PageSize && InPage(start, a) == InPage(start, b)
    ensures a == b
  {
    assert a == (a / PageSize) * PageSize + a % PageSize && b == (b / PageSize) * PageSize + b % PageSize;
  }

  // ----- splitting -----

  /** Whether eeprom_write_stream gets a write of n bytes at start right. */
  predicate SplitRight(start: addr, n: nat) { n > PageSize || FitsPage(start, n) }

  /** The length of the next chunk. */
  function ChunkLength(at: addr, remaining: nat, size: nat): (len: nat)
    ensures len <= PageSize && len <= remaining && (remaining > 0 ==> len > 0)
  {
    if remaining > PageSize && remaining == size then PageSize * ((at + PageSize) / PageSize) - at
    else Min(PageSize, remaining)
  }

  /** The first chunk of a long write ends on a page boundary. */
  lemma FirstChunk(at: addr, size: nat)
    requires size > PageSize
    ensures var len := ChunkLength(at, size, size);
            1 <= len <= PageSize && FitsPage(at, len) && (at + len) % PageSize == 0
  {
    var q, r := at / PageSize, at % PageSize;
    assert at == q * PageSize + r;
    assert (at + PageSize) / PageSize == q + 1;
  }

  /** A chunk that fits its page extends what has been stored. */
  lemma NextChunk(m: Cells, start: addr, data: seq<byte>, pos: nat, to: nat)
    requires pos <= to <= |data| <= Size && FitsPage((start + pos) % Size, to - pos)
    ensures PageWritten(Stored(m, start, data[..pos]), (start + pos) % Size, data[pos..to])
      == Stored(m, start, data[..to])
  {
    hide Stored, PageWritten;
    PageWriteStores(Stored(m, start, data[..pos]), (start + pos) % Size, data[pos..to]);
    StoredConcat(m, start, data[..pos], data[pos..to]);
    assert data[..pos] + data[pos..to] == data[..to];
  }

  /** Each chunk of a write that is split right fits its page, and leaves the next one at the start of a page. */
  lemma ChunkIsGood(start: addr, size: nat, pos: nat)
    requires pos <= size && (pos > 0 ==> size > PageSize && (start + pos) % Size % PageSize == 0)
    ensures var len := ChunkLength((start + pos) % Size, size - pos, size);
            && len <= PageSize && len <= size - pos && (len == 0 ==> size == pos)
            && (SplitRight(start, size) ==> FitsPage((start + pos) % Size, len))
            && (len < size - pos ==> size > PageSize && (start + pos + len) % Size % PageSize == 0)
            && (size <= PageSize ==> len == size - pos)
  {
    var at := (start + pos) % Size;
    var len := ChunkLength(at, size - pos, size);
    SamePlace(start + pos);
    SamePlace(start + pos + len);
    if pos == 0 && size > PageSize {
      FirstChunk(start, size);
    } else if pos > 0 {
      assert len == Min(PageSize, size - pos) by { assert pos > 0; }
      OnePageOn(start + pos);
    }
  }

  lemma OnePageOn(a: nat)
    ensures (a + PageSize) % PageSize == a % PageSize
  {
  }

  /** Addresses wrap at a page boundary. */
  lemma SamePlace(a: nat)
    ensures a % Size % PageSize == a % PageSize
  {
    var q, r := a / Size, a % Size;
    assert a == Size * q + r;
  }

  /** The rest of a write of size bytes, chunk by chunk. */
  function WriteFrom(m: Cells, at: addr, rest: seq<byte>, size: nat): Cells
    decreases |rest|
  {
    var len := ChunkLength(at, |rest|, size);
    var t := PageWritten(m, at, rest[..len]);
    if len == |rest| then t else WriteFrom(t, (at + len) % Size, rest[len..], size)
  }

  /** What the device holds once all of eeprom_write_stream's chunks have gone out. */
  function Written(m: Cells, start: addr, data: seq<byte>): Cells { WriteFrom(m, start, data, |data|) }

  /** One chunk of the write, and what is left of it. */
  lemma WriteOn(m: Cells, at: addr, data: seq<byte>, pos: nat, len: nat)
    requires pos <= |data| && len == ChunkLength(at, |data| - pos, |data|)
    ensures var t := PageWritten(m, at, data[pos..pos + len]);
            WriteFrom(m, at, data[pos..], |data|)
              == if pos + len == |data| then t else WriteFrom(t, (at + len) % Size, data[pos + len..], |data|)
  {
    hide PageWritten;
    assert data[pos..][..len] == data[pos..pos + len] && data[pos..][len..] == data[pos + len..];
  }

  /** From any chunk on, a write that is split right ends with its data stored. */
  lemma {:induction false} ChunksStore(m: Cells, start: addr, data: seq<byte>, pos: nat)
    requires |data| <= Size && SplitRight(start, |data|) && pos <= |data|
    requires pos > 0 ==> |data| > PageSize && (start + pos) % Size % PageSize == 0
    ensures WriteFrom(Stored(m, start, data[..pos]), (start + pos) % Size, data[pos..], |data|)
      == Stored(m, start, data)
    decreases |data| - pos
  {
    hide Stored, PageWritten, ChunkLength, FitsPage, SplitRight, WriteFrom;
    var at := (start + pos) % Size;
    var len := ChunkLength(at, |data| - pos, |data|);
    var to := pos + len;
    ChunkIsGood(start, |data|, pos);
    WriteOn(Stored(m, start, data[..pos]), at, data, pos, len);
    NextChunk(m, start, data, pos, to);
    if to == |data| {
      assert data[..to] == data;
    } else {
      NextAddress(start, pos, len);
      ChunksStore(m, start, data, to);
    }
  }

  lemma NextAddress(start: addr, pos: nat, len: nat)
    ensures ((start + pos) % Size + len) % Size == (start + pos + len) % Size
  {
  }

  lemma WrittenStores(m: Cells, start: addr, data: seq<byte>)
    requires |data| <= Size && SplitRight(start, |data|)
    ensures Written(m, start, data) == Stored(m, start, data)
  {
    hide Stored, SplitRight, WriteFrom;
    NothingStored(m, start);
    assert data[..0] == [] && data[0..] == data;
    ChunksStore(m, start, data, 0);
  }

  /** A write of at most a page is one chunk, whether it fits or not. */
  lemma WrittenOnce(m: Cells, start: addr, data: seq<byte>)
    requires |data| <= PageSize
    ensures Written(m, start, data) == PageWritten(m, start, data)
  {
    hide PageWritten;
    assert data[..|data|] == data;
  }

  /** Data written at start is read back, and every cell outside it is kept. */
  ghost predicate Right(m: Cells, start: addr, data: seq<byte>) {
    && Read(Written(m, start, data), start, |data|) == data
    && forall a: addr | From(start, a) >= |data| :: Written(m, start, data)[a] == m[a]
  }

  /** Writes of one size at one place come out right, for all data on all devices, exactly when they are
      longer than a page or fit in one. */
  lemma RightIffSplitRight(start: addr, n: nat)
    requires n <= Size
    ensures (forall m: Cells, data: seq<byte> | |data| == n :: Right(m, start, data)) <==> SplitRight(start, n)
  {
    if SplitRight(start, n) {
      forall m: Cells, data: seq<byte> | |data| == n ensures Right(m, start, data) {
        WrittenStores(m, start, data);
        StoredReadsBack(m, start, data);
      }
    } else {
      var blank: Cells, ones := seq(Size, _ => 0), seq(n, _ => 1);
      CrossingFails(blank, start, ones);
      assert !Right(blank, start, ones);
    }
  }

  /** The byte meant for the next page never gets there. */
  lemma CrossingFails(m: Cells, start: addr, data: seq<byte>)
    requires !SplitRight(start, |data|)
    requires (forall a: addr :: m[a] == 0) && forall k | 0 <= k < |data| :: data[k] == 1
    ensures Read(Written(m, start, data), start, |data|) != data
  {
    var k := PageSize - start % PageSize;
    var a: addr := (start + k) % Size;
    NextPage(start);
    WrittenOnce(m, start, data);
    assert Written(m, start, data)[a] == m[a];
    assert Read(Written(m, start, data), start, |data|)[k] == 0;
  }

  lemma NextPage(start: addr)
    ensures ((start + PageSize - start % PageSize) % Size) / PageSize != start / PageSize
  {
    var q := start / PageSize;
    assert start + PageSize - start % PageSize == (q + 1) * PageSize;
  }

  class Device {
    const cells: array<byte>

    ghost predicate Valid() { cells.Length == Size }

    constructor ()
      ensures Valid() && fresh(cells)
    {
      cells := new byte[Size](_ => 0);
    }

    /** eeprom_read_stream. */
    method ReadStream(start: addr, n: nat) returns (data: seq<byte>)
      requires Valid()
      ensures data == Read(cells[..], start, n)
    {
      data := [];
      for k := 0 to n
        invariant data == Read(cells[..], start, k)
      {
        data := data + [cells[(start + k) % Size]];
      }
    }

    /** _write_in_page; a transfer that is not acknowledged writes nothing. */
    method WriteInPage(start: addr, data: seq<byte>, acked: bool) returns (ok: bool)
      requires Valid() && |data| <= PageSize
      modifies cells
      ensures ok == acked && cells[..] == if acked then PageWritten(old(cells[..]), start, data) else old(cells[..])
    {
      if acked {
        ghost var was := cells[..];
        for k := 0 to |data|
          invariant cells[..] == PageWritten(was, start, data[..k])
        {
          ghost var now := cells[..];
          var a := PageSize * (start / PageSize) + (start % PageSize + k) % PageSize;
          PageCell(was, start, data, k, a);
          cells[a] := data[k];
          assert cells[..] == now[a := data[k]];
        }
        assert data[..|data|] == data;
      }
      return acked;
    }

    /** eeprom_write_stream. acks tells which page writes are acknowledged; sent is how many bytes went out. */
    method WriteStream(start: addr, data: seq<byte>, acks: nat -> bool) returns (ok: bool, ghost sent: nat)
      requires Valid() && |data| <= Size
      modifies cells
      ensures sent <= |data| && (ok ==> sent == |data|) && ((forall k :: acks(k)) ==> ok)
      ensures ok ==> cells[..] == Written(old(cells[..]), start, data)
      ensures !ok && SplitRight(start, |data|) ==> cells[..] == Stored(old(cells[..]), start, data[..sent])
      ensures !ok && |data| <= PageSize ==> cells[..] == old(cells[..])
    {
      hide Stored, PageWritten, ChunkLength, FitsPage, WriteFrom, SplitRight;
      ghost var was := cells[..];
      var at: addr, pos, remaining, k := start, 0, |data|, 0;
      sent := 0;
      NothingStored(was, start);
      assert data[..0] == [] && data[0..] == data;
      ok := true;
      while true
        invariant Valid() && pos + remaining == |data| && at == (start + pos) % Size && sent == pos && k >= 0
        invariant ok && (pos > 0 ==> remaining > 0 && |data| > PageSize && at % PageSize == 0)
          && (pos == 0 ==> cells[..] == was)
        invariant WriteFrom(cells[..], at, data[pos..], |data|) == Written(was, start, data)
        invariant SplitRight(start, |data|) ==> cells[..] == Stored(was, start, data[..pos])
        decreases remaining
      {
        var len := ChunkLength(at, remaining, |data|);
        ChunkIsGood(start, |data|, pos);
        WriteOn(cells[..], at, data, pos, len);
        if SplitRight(start, |data|) { NextChunk(was, start, data, pos, pos + len); }
        ok := WriteInPage(at, data[pos..pos + len], acks(k));
        k := k + 1;
        if !ok { return; }
        sent := pos + len;
        NextAddress(start, pos, len);
        at := (at + len) % Size;
        pos := pos + len;
        remaining := remaining - len;
        if remaining == 0 { return; }
      }
    }
  }

  // ----- the device record -----

  const Magic: nat := 0x6B4A
  const RecordSize: nat := 64

  /** The magic number as the little-endian controller lays it out. */
  const Header: seq<byte> := [Magic % 0x100, Magic / 0x100]

  /** The magic number at 0, the record behind it. */
  function Committed(m: Cells, r: seq<byte>): Cells { Stored(Stored(m, 0, Header), 2, r) }

  function Loaded(m: Cells): Option<seq<byte>> {
    if Read(m, 0, 2) == Header then Some(Read(m, 2, RecordSize)) else None
  }

  /** Where the record lies: the magic number 0x6B4A in the first two cells, low byte first, the record right behind,
      and every other cell as it was. */
  lemma RecordLayout(m: Cells, r: seq<byte>)
    requires |r| == RecordSize
    ensures var t := Committed(m, r);
            && t[0] == 0x4A && t[1] == 0x6B && t[2..2 + |r|] == r && t[2 + |r|..] == m[2 + |r|..] && |r| == 64
  {
    var t := Committed(m, r);
    forall k: nat | k < |r| ensures t[2 + k] == r[k] { FromOf(2, k); }
    assert forall k: addr | 2 + |r| <= k :: From(2, k) >= |r| && From(0, k) >= 2;
    assert From(2, 0) >= |r| && From(2, 1) >= |r| && From(0, 0) == 0 && From(0, 1) == 1;
  }

  lemma HeaderSurvives(m: Cells, r: seq<byte>)
    requires |r| <= RecordSize
    ensures Read(Committed(m, r), 0, 2) == Header
  {
    StoredReadsBack(m, 0, Header);
    var h := Stored(m, 0, Header);
    assert From(2, 0) >= |r| && From(2, 1) >= |r|;
    assert Committed(m, r)[0] == h[0] && Committed(m, r)[1] == h[1];
  }

  /** Committing and then loading gives the record back, whatever the device held. */
  lemma CommitThenLoad(m: Cells, r: seq<byte>)
    requires |r| == RecordSize
    ensures Loaded(Committed(m, r)) == Some(r)
  {
    HeaderSurvives(m, r);
    StoredReadsBack(Stored(m, 0, Header), 2, r);
  }

  /** A commit that fails in the record leaves a device that still loads: the part that went out, then what was
      there before. */
  lemma TornCommitLoads(m: Cells, r: seq<byte>, sent: nat)
    requires |r| == RecordSize && sent <= RecordSize
    ensures Loaded(Committed(m, r[..sent])) == Some(r[..sent] + Read(m, 2 + sent, RecordSize - sent))
  {
    HeaderSurvives(m, r[..sent]);
    var torn, want := Read(Committed(m, r[..sent]), 2, RecordSize), r[..sent] + Read(m, 2 + sent, RecordSize - sent);
    forall k: nat | k < RecordSize ensures torn[k] == want[k] {
      assert From(2, 2 + k) == k && From(0, 2 + k) == 2 + k;
    }
    assert torn == want;
  }

  /** _commit_eeprom. */
  method Commit(d: Device, r: seq<byte>, headerAcks: nat -> bool, recordAcks: nat -> bool)
    returns (ok: bool, ghost sent: nat)
    requires d.Valid() && |r| == RecordSize
    modifies d.cells
    ensures ok ==> d.cells[..] == Committed(old(d.cells[..]), r)
    ensures !ok ==>
      d.cells[..] == old(d.cells[..])
      || (sent <= RecordSize && d.cells[..] == Committed(old(d.cells[..]), r[..sent]))
  {
    WrittenStores(d.cells[..], 0, Header);
    ok, sent := d.WriteStream(0, Header, headerAcks);
    if !ok { return; }
    WrittenStores(d.cells[..], 2, r);
    ok, sent := d.WriteStream(2, r, recordAcks);
  }

  /** _load_eeprom. */
  method Load(d: Device) returns (r: Option<seq<byte>>)
    requires d.Valid()
    ensures r == Loaded(d.cells[..])
  {
    var magic := d.ReadStream(0, 2);
    if magic != Header { return None; }
    var record := d.ReadStream(2, RecordSize);
    return Some(record);
  }
}
