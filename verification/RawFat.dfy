/**
 The FAT as bytes: its sectors put together, cut into numbers of two or four bytes each. What the allocator does
 is told here in bytes, without the arithmetic of sectors and offsets that the driver goes by.
 */
module RawFat {
  import opened Bytes
  import opened Chains
  import opened Layout

  /** The sectors of the FAT, put together. */
  ghost function FatRaw(g: Geometry, d: Disk): (raw: seq<byte>)
    requires HasFat(g, d)
    ensures |raw| == 512 * g.spf
  {
    ConcatSectors(d[g.fatStart..g.fatStart + g.spf], 0);
    Concat(d[g.fatStart..g.fatStart + g.spf])
  }

  lemma RawAt(g: Geometry, d: Disk, p: nat)
    requires HasFat(g, d) && p < 512 * g.spf
    ensures FatRaw(g, d)[p] == d[g.fatStart + p / 512][p % 512]
  {
    ConcatSectors(d[g.fatStart..g.fatStart + g.spf], p);
  }

  /** How many entries n bytes are: entries have four bytes on FAT32 and two on FAT16. */
  function EntryCount(fat32: bool, n: nat): nat {
    if fat32 then n / 4 else n / 2
  }

  /** Where entry c begins. */
  function Start(fat32: bool, c: nat): nat {
    if fat32 then 4 * c else 2 * c
  }

  /** The bytes of entry c. */
  function Piece(fat32: bool, raw: seq<byte>, c: nat): (b: seq<byte>)
    requires c < EntryCount(fat32, |raw|)
    ensures |b| == if fat32 then 4 else 2
  {
    raw[Start(fat32, c)..Start(fat32, c + 1)]
  }

  /** The entries the bytes stand for. */
  ghost function Numbers(fat32: bool, raw: seq<byte>): (t: seq<nat>)
    ensures |t| == EntryCount(fat32, |raw|)
    ensures forall c :: 0 <= c < |t| ==> t[c] == Value(Piece(fat32, raw, c))
  {
    seq(EntryCount(fat32, |raw|), c requires 0 <= c < EntryCount(fat32, |raw|) => Value(Piece(fat32, raw, c)))
  }

  /** Byte k of entry c. */
  lemma RawPlace(g: Geometry, d: Disk, c: nat, k: nat)
    requires HasFat(g, d) && c < g.Entries() && k < Start(g.fat32, 1)
    ensures Start(g.fat32, c) + k < 512 * g.spf && EntryOffset(g, c) + k < 512
    ensures FatRaw(g, d)[Start(g.fat32, c) + k] == d[EntrySector(g, c)][EntryOffset(g, c) + k]
  {
    RawAt(g, d, Start(g.fat32, c) + k);
    hide FatRaw;
  }

  /** Entry c is the number that its bytes are the digits of. */
  lemma EntryBytes(g: Geometry, d: Disk, c: nat)
    requires HasFat(g, d) && c < g.Entries()
    ensures c < EntryCount(g.fat32, 512 * g.spf)
    ensures Entry(g, d, c) == Value(Piece(g.fat32, FatRaw(g, d), c))
  {
    var w, raw := Start(g.fat32, 1), FatRaw(g, d);
    var s, o := d[EntrySector(g, c)], EntryOffset(g, c);
    forall k | 0 <= k < w ensures Piece(g.fat32, raw, c)[k] == s[o + k] {
      RawPlace(g, d, c, k);
    }
    assert Piece(g.fat32, raw, c) == s[o..o + w];
    if g.fat32 { Le32Value(s, o, 0); } else { Le16Value(s, o, 0); }
  }

  /** The table is what the bytes of the FAT stand for. */
  lemma FatAsBytes(g: Geometry, d: Disk)
    requires HasFat(g, d)
    ensures Table(g, d) == Numbers(g.fat32, FatRaw(g, d))
  {
    hide Table, FatRaw, Entry;
    forall c | 0 <= c < g.Entries() ensures Table(g, d)[c] == Numbers(g.fat32, FatRaw(g, d))[c] {
      EntryBytes(g, d, c);
    }
  }

  // ---------------------------------------------------------------- storing an entry

  /** Storing an entry replaces its bytes and no others. */
  lemma StoredBytes(g: Geometry, d: Disk, c: nat, v: nat)
    requires HasFat(g, d) && c < g.Entries()
    ensures c < EntryCount(g.fat32, 512 * g.spf)
    ensures FatRaw(g, WithEntry(g, d, c, v))
         == Patch(FatRaw(g, d), Start(g.fat32, c), Digits(v, if g.fat32 then 4 else 2))
  {
    var w, d' := if g.fat32 then 4 else 2, WithEntry(g, d, c, v);
    var x, s, o := Start(g.fat32, c), EntrySector(g, c), EntryOffset(g, c);
    if g.fat32 { Le32Value([0, 0, 0, 0], 0, v); } else { Le16Value([0, 0], 0, v); }
    assert Encode(g, v) == Digits(v, w);
    forall p | 0 <= p < 512 * g.spf
      ensures FatRaw(g, d')[p] == Patch(FatRaw(g, d), x, Digits(v, w))[p]
    {
      RawAt(g, d, p);
      RawAt(g, d', p);
      SameSector(g, c, p);
    }
  }

  lemma SameSector(g: Geometry, c: nat, p: nat)
    ensures var x, o := Start(g.fat32, c), EntryOffset(g, c);
      && (g.fatStart + p / 512 == EntrySector(g, c) <==> x - o <= p < x - o + 512)
      && (x - o <= p < x - o + 512 ==> p % 512 == p - (x - o))
  {
  }

  /** The bytes of the end mark of a chain. */
  function EndMark(fat32: bool): (b: seq<byte>)
    ensures |b| == if fat32 then 4 else 2
  {
    if fat32 then [0xF8, 0xFF, 0xFF, 0x0F] else [0xF8, 0xFF]
  }

  ghost predicate AllZero(b: seq<byte>) {
    forall k :: 0 <= k < |b| ==> b[k] == 0
  }

  /**
   Taking a cluster, in bytes: the first entry whose bytes are all zero gets the bytes of an end mark, and
   nothing else changes; r is its number, or 0 when there is none.
   */
  ghost predicate TakenRaw(fat32: bool, raw: seq<byte>, raw': seq<byte>, r: int) {
    if forall c :: 0 <= c < EntryCount(fat32, |raw|) ==> !AllZero(Piece(fat32, raw, c)) then r == 0 && raw' == raw
    else
      && 0 <= r < EntryCount(fat32, |raw|) && AllZero(Piece(fat32, raw, r))
      && raw' == Patch(raw, Start(fat32, r), EndMark(fat32))
      && forall c :: 0 <= c < r ==> !AllZero(Piece(fat32, raw, c))
  }

  lemma FreeBytes(fat32: bool, raw: seq<byte>, c: nat)
    requires c < EntryCount(fat32, |raw|)
    ensures Numbers(fat32, raw)[c] == 0 <==> AllZero(Piece(fat32, raw, c))
  {
    ZeroValue(Piece(fat32, raw, c));
  }

  /** The first entry that is 0 has got an end mark, or none is 0. */
  lemma TakenNumbers(fat32: bool, raw: seq<byte>, raw': seq<byte>, r: nat)
    requires if Full(Numbers(fat32, raw)) then r == 0 && raw' == raw
             else LeastFree(Numbers(fat32, raw), r) && raw' == Patch(raw, Start(fat32, r), EndMark(fat32))
    ensures TakenRaw(fat32, raw, raw', r)
  {
    forall c | 0 <= c < EntryCount(fat32, |raw|)
      ensures Numbers(fat32, raw)[c] == 0 <==> AllZero(Piece(fat32, raw, c))
    {
      FreeBytes(fat32, raw, c);
    }
    hide Numbers, Piece, AllZero, EndMark, Patch;
  }

  lemma EndMarkDigits(g: Geometry)
    ensures Digits(g.NewEnd(), if g.fat32 then 4 else 2) == EndMark(g.fat32)
  {
    if g.fat32 { Le32Value([0, 0, 0, 0], 0, 0xFFF_FFF8); } else { Le16Value([0, 0], 0, 0xFFF8); }
  }

  // ---------------------------------------------------------------- chains

  /** The link of a cluster to the next one, in bytes. */
  lemma LinkBytes(g: Geometry, d: Disk, ch: seq<nat>, j: nat)
    requires HasFat(g, d) && IsChain(Table(g, d), g.EndMarker(), g.limit, ch) && j < |ch|
    ensures ch[j] < EntryCount(g.fat32, |FatRaw(g, d)|)
    ensures var v := Value(Piece(g.fat32, FatRaw(g, d), ch[j]));
      if j + 1 < |ch| then v == ch[j + 1] else v >= if g.fat32 then 0xFFF_FFF0 else 0xFFF0
  {
    FatAsBytes(g, d);
    EntryBytes(g, d, ch[j]);
    hide FatRaw;
  }

  /** Zeroing the entries of a chain zeroes their bytes and no others. */
  lemma FreedBytes(g: Geometry, d: Disk, d': Disk, ch: seq<nat>)
    requires HasFat(g, d) && HasFat(g, d') && Table(g, d') == Zeroed(Table(g, d), ch)
    ensures forall c :: 0 <= c < EntryCount(g.fat32, 512 * g.spf) ==>
      var b, b' := Piece(g.fat32, FatRaw(g, d), c), Piece(g.fat32, FatRaw(g, d'), c);
      if c in ch then AllZero(b') else b' == b
  {
    FatAsBytes(g, d);
    FatAsBytes(g, d');
    hide Table, FatRaw, Piece, Numbers, AllZero;
    forall c | 0 <= c < EntryCount(g.fat32, 512 * g.spf)
      ensures var b, b' := Piece(g.fat32, FatRaw(g, d), c), Piece(g.fat32, FatRaw(g, d'), c);
        if c in ch then AllZero(b') else b' == b
    {
      FreedPiece(g.fat32, FatRaw(g, d), FatRaw(g, d'), c, c in ch);
    }
  }

  lemma FreedPiece(fat32: bool, raw: seq<byte>, raw': seq<byte>, c: nat, freed: bool)
    requires |raw'| == |raw| && c < EntryCount(fat32, |raw|)
    requires Numbers(fat32, raw')[c] == if freed then 0 else Numbers(fat32, raw)[c]
    ensures if freed then AllZero(Piece(fat32, raw', c)) else Piece(fat32, raw', c) == Piece(fat32, raw, c)
  {
    var a, b := Piece(fat32, raw, c), Piece(fat32, raw', c);
    if freed { ZeroValue(b); } else { ValueUnique(a, b); }
  }
}
