/** Locating the signature header and the main header inside an RPM file from
    the on-disk layout alone: a fixed 96-byte lead, then header structures
    that each start with a 16-byte preamble (8 opaque bytes, a big-endian u32
    count of 16-byte index entries, a big-endian u32 data-store size) and end
    on an 8-byte boundary. */
module HeaderRange {
  import opened Results
  import opened Bytes

  /** Size of the RPM lead, skipped without being parsed. */
  const LeadSize: nat := 96

  /** Size of one header index entry. */
  const IndexEntrySize: nat := 16

  /** `struct.unpack('>I', ...)` fails when `read(4)` came back short; the
      two reads of a preamble fail separately. */
  datatype ParseError = TruncatedIndexCount | TruncatedStoreSize

  /** A big-endian unsigned 32-bit integer, as `struct.unpack('>I', b)`. */
  function BeU32(b: seq<Byte>): (n: nat)
    requires |b| == 4
    ensures n < 0x1_0000_0000
  {
    (b[0] as int) * 0x100_0000 + (b[1] as int) * 0x1_0000 + (b[2] as int) * 0x100 + b[3]
  }

  /** The inverse of `BeU32`, as `struct.pack('>I', n)`. */
  function EncodeBeU32(n: nat): (b: seq<Byte>)
    requires n < 0x1_0000_0000
    ensures |b| == 4 && BeU32(b) == n
  {
    var b0, r0 := n / 0x100_0000, n % 0x100_0000;
    var b1, r1 := r0 / 0x1_0000, r0 % 0x1_0000;
    var b2, b3 := r1 / 0x100, r1 % 0x100;
    [b0, b1, b2, b3]
  }

  /** Decoding loses nothing: four bytes are recovered from their value. */
  lemma EncodeDecodeBeU32(b: seq<Byte>)
    requires |b| == 4
    ensures EncodeBeU32(BeU32(b)) == b
  {
    var n := BeU32(b);
    assert n / 0x100_0000 == b[0] && n % 0x100_0000 == (b[1] as int) * 0x1_0000 + (b[2] as int) * 0x100 + b[3];
  }

  /** `size` rounded up to the next multiple of 8 (a no-op on multiples of 8). */
  function AlignUp8(size: nat): (r: nat)
    ensures r % 8 == 0
    ensures size <= r < size + 8
    ensures size % 8 == 0 ==> r == size
  {
    var roundOut := size % 8;
    if roundOut != 0 then size + (8 - roundOut) else size
  }

  /** Total size of a header structure whose preamble holds `indexCount` and
      `storeBytes`: preamble, index and store, padded to 8 bytes. */
  function StructSize(indexCount: nat, storeBytes: nat): (size: nat)
    ensures size % 8 == 0 && size >= 16
    ensures 16 + IndexEntrySize * indexCount + storeBytes <= size
    ensures size < 16 + IndexEntrySize * indexCount + storeBytes + 8
  {
    AlignUp8(8 + 4 + 4 + indexCount * IndexEntrySize + storeBytes)
  }

  /** The size of the header structure whose preamble starts at byte `p` of
      `data`, or the read that came back short. */
  function StructSizeAt(data: seq<Byte>, p: nat): (r: Result<nat, ParseError>)
    ensures r.Ok? <==> p + 16 <= |data|
    ensures r == Err(TruncatedIndexCount) <==> |data| < p + 12
    ensures r.Ok? ==> r.value % 8 == 0 && r.value >= 16
    ensures r.Ok? ==> r.value == StructSize(BeU32(data[p + 8 .. p + 12]), BeU32(data[p + 12 .. p + 16]))
  {
    if |data| < p + 12 then Err(TruncatedIndexCount)
    else if |data| < p + 16 then Err(TruncatedStoreSize)
    else Ok(StructSize(BeU32(data[p + 8 .. p + 12]), BeU32(data[p + 12 .. p + 16])))
  }

  /** `(header_start, header_end)` of the main header of the RPM file `data`:
      the signature structure starts right after the lead and the main header
      right after the signature structure. */
  function HeaderByteRange(data: seq<Byte>): (r: Result<(nat, nat), ParseError>)
    ensures r.Ok? ==> StructSizeAt(data, LeadSize) == Ok(r.value.0 - LeadSize)
    ensures r.Ok? ==> StructSizeAt(data, r.value.0) == Ok(r.value.1 - r.value.0)
    ensures r.Ok? ==> r.value.0 >= LeadSize + 16 && (r.value.0 - LeadSize) % 8 == 0
    ensures r.Ok? ==> r.value.1 >= r.value.0 + 16 && (r.value.1 - r.value.0) % 8 == 0
    ensures r.Err? <==> StructSizeAt(data, LeadSize).Err?
                        || StructSizeAt(data, LeadSize + StructSizeAt(data, LeadSize).value).Err?
  {
    match StructSizeAt(data, LeadSize)
    case Err(e) => Err(e)
    case Ok(sigSize) =>
      var headerStart := LeadSize + sigSize;
      match StructSizeAt(data, headerStart)
      case Err(e) => Err(e)
      case Ok(headerSize) => Ok((headerStart, headerStart + headerSize))
  }

  /** A file laid out as the RPM format prescribes, with preambles encoding
      chosen counts, is located exactly where those counts put its headers. */
  lemma LocateSyntheticPackage(data: seq<Byte>, sigIndex: nat, sigStore: nat, hdrIndex: nat, hdrStore: nat)
    requires sigIndex < 0x1_0000_0000 && sigStore < 0x1_0000_0000
    requires hdrIndex < 0x1_0000_0000 && hdrStore < 0x1_0000_0000
    requires |data| >= LeadSize + StructSize(sigIndex, sigStore) + 16
    requires data[104..108] == EncodeBeU32(sigIndex) && data[108..112] == EncodeBeU32(sigStore)
    requires var start := LeadSize + StructSize(sigIndex, sigStore);
             data[start + 8 .. start + 12] == EncodeBeU32(hdrIndex)
             && data[start + 12 .. start + 16] == EncodeBeU32(hdrStore)
    ensures HeaderByteRange(data)
            == Ok((LeadSize + StructSize(sigIndex, sigStore),
                   LeadSize + StructSize(sigIndex, sigStore) + StructSize(hdrIndex, hdrStore)))
  {
  }

  /** A seekable, readable RPM file: its bytes and Python's file position. */
  class PackageFile {
    const data: seq<Byte>
    var pos: nat

    constructor (contents: seq<Byte>)
      ensures data == contents && pos == 0
    {
      data := contents;
      pos := 0;
    }

    /** `seek(offset)`: absolute positioning; seeking past the end is allowed. */
    method Seek(offset: nat)
      modifies this
      ensures pos == offset
    {
      pos := offset;
    }

    /** `seek(delta, 1)`: positioning relative to the current position. */
    method SeekRelative(delta: nat)
      modifies this
      ensures pos == old(pos) + delta
    {
      pos := pos + delta;
    }

    /** `read(n)`: up to `n` bytes; fewer (possibly none) near or past the end,
        and the position moves by the number of bytes returned. */
    method Read(n: nat) returns (chunk: seq<Byte>)
      modifies this
      ensures chunk == PySlice(data, old(pos), old(pos) + n)
      ensures pos == old(pos) + |chunk|
    {
      chunk := PySlice(data, pos, pos + n);
      pos := pos + |chunk|;
    }
  }

  /** `get_header_struct_size`: the size of the header structure at the current
      position, leaving the position just past the preamble's two counts. */
  method GetHeaderStructSize(f: PackageFile) returns (r: Result<nat, ParseError>)
    modifies f
    ensures r == StructSizeAt(f.data, old(f.pos))
    ensures r.Ok? ==> f.pos == old(f.pos) + 16
    ensures r == Err(TruncatedIndexCount)
            ==> f.pos == old(f.pos) + 8 + |PySlice(f.data, old(f.pos) + 8, old(f.pos) + 12)|
    ensures r == Err(TruncatedStoreSize)
            ==> f.pos == old(f.pos) + 12 + |PySlice(f.data, old(f.pos) + 12, old(f.pos) + 16)|
  {
    // Move past the 8 opaque preamble bytes.
    f.SeekRelative(8);

    var headerIndex := f.Read(4);
    if |headerIndex| != 4 {
      return Err(TruncatedIndexCount);
    }
    var headerIndexValue := BeU32(headerIndex);

    var headerStore := f.Read(4);
    if |headerStore| != 4 {
      return Err(TruncatedStoreSize);
    }
    var headerStoreValue := BeU32(headerStore);

    var headerSize := 8 + 4 + 4 + headerIndexValue * 16 + headerStoreValue;
    var roundOut := headerSize % 8;
    if roundOut != 0 {
      headerSize := headerSize + (8 - roundOut);
    }
    return Ok(headerSize);
  }

  /** `get_header_byte_range`: seek past the lead, size the signature
      structure, seek to the main header and size it. */
  method GetHeaderByteRange(f: PackageFile) returns (r: Result<(nat, nat), ParseError>)
    modifies f
    ensures r == HeaderByteRange(f.data)
    ensures r.Ok? ==> f.pos == r.value.0 + 16
  {
    f.Seek(LeadSize);
    var sigSize := GetHeaderStructSize(f);
    if sigSize.Err? {
      return Err(sigSize.error);
    }
    var headerStart := LeadSize + sigSize.value;

    f.Seek(headerStart);
    var headerSize := GetHeaderStructSize(f);
    if headerSize.Err? {
      return Err(headerSize.error);
    }
    var headerEnd := headerStart + headerSize.value;
    return Ok((headerStart, headerEnd));
  }
}
