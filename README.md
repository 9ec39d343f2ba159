# RPM header location, signature key ids and package ordering

A Dafny model of the self-contained logic in `katello_certs_tools/rhn_rpm.py`, the
RPM helper module of katello-certs-tools. The module has three parts:

- **Header byte range** (`get_header_struct_size`, `get_header_byte_range`). The code
  skips the fixed 96-byte lead of an RPM file. It then reads the preamble of each header
  structure: 8 opaque bytes, a big-endian u32 count of 16-byte index entries, and a
  big-endian u32 data-store size. The structure's size is the preamble plus the index
  plus the store, rounded up to 8 bytes. The result is `(header_start, header_end)` of
  the main header, which follows the signature header. The file is a `PackageFile`
  object that holds the bytes and Python's file position, with `Seek`, `SeekRelative`
  and `Read` methods. The two operations are methods that move that position. Each is
  proved equal to a pure function (`StructSizeAt`, `HeaderByteRange`), and the
  alignment and offset facts are proved about those functions. A short `read(4)`,
  which makes `struct.unpack` raise, becomes an explicit `Err`.
- **The header wrapper** (`RPM_Header`). Its constructor starts `signatures` empty,
  and `_extract_signatures` appends one record per signature tag, in the order dsa,
  rsa, gpg, pgp. A record is made only for a value of at least 17 bytes. Its key id is
  an 8-byte slice whose position depends on the value's length, rendered as
  lower-case hex. The class keeps the constructor and the appending loop.
  `checksum_type` and `is_signed` are pure functions of the decoded header. The header
  itself is decoded by the rpm binding and is modelled as the tag values that this code
  reads.
- **Ordering wrappers** (`nvre_compare`, `hdrLabelCompare`). These check or compare
  package names. They reshape the remaining fields into the `[epoch, version, release]`
  list that rpm's `labelCompare` takes. `labelCompare` is foreign C code, so it is a
  function parameter of type `(Evr, Evr) -> int`. The lemmas state what the wrappers
  inherit from it: antisymmetry, and transitivity of "at most".

Files: `results.dfy` (Option/Result), `bytes.dfy` (the byte type and Python slicing),
`header_range.dfy`, `rpm_header.dfy`, `package_order.dfy`.

Facts about the code that shape the model:

- `get_header_struct_size` moves the position 16 bytes: an 8-byte relative seek and two
  4-byte reads.
- The code has no 64-bit overflow check and no "malformed header" error. Python
  integers are unbounded, and so are the model's.
- The code contains no EVR comparison algorithm (tilde rule, segment comparison, epoch
  rule). That comparison is rpm's `labelCompare`, which stays uninterpreted.
- `checksum_type` is computed on demand, not at construction.

## Model

| member | source | states |
|---|---|---|
| Bytes.PySlice | katello_certs_tools/rhn_rpm.py:109-116 | Python's `s[i:j]` clamps to the sequence; its length is `j - i` when in bounds, less otherwise, and it equals `s[i..j]` when in bounds |
| HeaderRange.BeU32 | katello_certs_tools/rhn_rpm.py:166-171 | `struct.unpack('>I')` of four bytes is a value below 2^32 |
| HeaderRange.EncodeBeU32 | katello_certs_tools/rhn_rpm.py:167 | packing a u32 big-endian gives four bytes that decode back to the value |
| HeaderRange.EncodeDecodeBeU32 | katello_certs_tools/rhn_rpm.py:167 | four bytes are recovered from their decoded value (decoding is injective) |
| HeaderRange.AlignUp8 | katello_certs_tools/rhn_rpm.py:176-179 | the rounded size is a multiple of 8, at least the raw size and less than raw + 8, and equal to it when the raw size is already aligned |
| HeaderRange.StructSize | katello_certs_tools/rhn_rpm.py:173-181 | a structure's size is a multiple of 8, at least 16, and within 8 bytes above `16 + 16*index + store` |
| HeaderRange.StructSizeAt | katello_certs_tools/rhn_rpm.py:157-181 | sizing the structure at `p` succeeds iff 16 bytes are there; the index count is read at +8 and the store size at +12; the first short read is reported |
| HeaderRange.HeaderByteRange | katello_certs_tools/rhn_rpm.py:130-154 | `header_start` is 96 plus the signature structure's size, so it is at least 112 and `header_start - 96` is a multiple of 8; `header_end - header_start` is the size of the structure at `header_start`, at least 16 and a multiple of 8; it fails exactly when either structure's preamble is truncated |
| HeaderRange.LocateSyntheticPackage | katello_certs_tools/rhn_rpm.py:138-181 | a file whose two preambles encode chosen counts is located at `96 + size(sig)` to `96 + size(sig) + size(hdr)` |
| HeaderRange.PackageFile.constructor | katello_certs_tools/rhn_rpm.py:130 | a file opened on some bytes is positioned at 0 |
| HeaderRange.PackageFile.Seek | katello_certs_tools/rhn_rpm.py:141 | an absolute seek sets the position, even past the end |
| HeaderRange.PackageFile.SeekRelative | katello_certs_tools/rhn_rpm.py:163 | `seek(8, 1)` moves the position forward by 8 |
| HeaderRange.PackageFile.Read | katello_certs_tools/rhn_rpm.py:166 | `read(n)` returns the clamped slice at the position and advances by its length |
| HeaderRange.GetHeaderStructSize | katello_certs_tools/rhn_rpm.py:157-181 | returns `StructSizeAt(data, pos)`; on success the position ends 16 bytes further on; on each short read it ends after the bytes actually read |
| HeaderRange.GetHeaderByteRange | katello_certs_tools/rhn_rpm.py:130-154 | returns `HeaderByteRange(data)` and leaves the position 16 bytes past `header_start` |
| RpmHeaderModel.ChecksumType | katello_certs_tools/rhn_rpm.py:77-83 | the digest name is the table entry for the tag's value, and `md5` when the tag is missing or its value has no entry; it is always `md5` or a table value |
| RpmHeaderModel.ChecksumTypeFallsBackToMd5 | katello_certs_tools/rhn_rpm.py:39-49 | the values None, 0, 4, below 1 and above 10 give `md5`; the result differs from `md5` iff the value is in 2..10 and is not 4 |
| RpmHeaderModel.ChecksumTypeAsWritten | katello_certs_tools/rhn_rpm.py:78-83 | as written, `checksum_type` either raises (for a non-zero int) or answers `md5`; it never names another digest |
| RpmHeaderModel.ChecksumTypeAsWrittenMissesSha256 | katello_certs_tools/rhn_rpm.py:78-80 | for tag value 8, the code as written raises (int value) or returns `md5` (text value), where the intended lookup gives `sha256` |
| RpmHeaderModel.IsSigned | katello_certs_tools/rhn_rpm.py:85-92 | returns 0 or 1; it is 1 iff `siggpg` or `sigpgp` is non-empty, or `dsaheader` is non-empty and the binding defines `RPMTAG_DSAHEADER`; `rsaheader` plays no part |
| RpmHeaderModel.KeyIdOffset | katello_certs_tools/rhn_rpm.py:108-116 | for every length of at least 17, the bucket chosen by length (first match wins) starts at 9, 18, 10 or 19, and 8 bytes from there are in bounds |
| RpmHeaderModel.KeyIdBytes | katello_certs_tools/rhn_rpm.py:109-118 | the key-id slice is never clamped: exactly 8 bytes, taken from the selected offset |
| RpmHeaderModel.HexByte | katello_certs_tools/rhn_rpm.py:121-122 | `%02x` prints exactly two lower-case hex digits, whose values give back the byte (high nibble first) |
| RpmHeaderModel.Hex | katello_certs_tools/rhn_rpm.py:118-122 | the rendering has two lower-case hex digits per byte |
| RpmHeaderModel.UnHex | katello_certs_tools/rhn_rpm.py:118-122 | hex text of even length reads back into half as many bytes |
| RpmHeaderModel.HexAt | katello_certs_tools/rhn_rpm.py:118-122 | byte `k` is rendered at characters `2k` and `2k+1`: bytes stay in order |
| RpmHeaderModel.UnHexHex | katello_certs_tools/rhn_rpm.py:118-122 | the key-id rendering loses nothing: reading the hex back gives the bytes |
| RpmHeaderModel.RecordFor | katello_certs_tools/rhn_rpm.py:101-127 | a tag yields a record iff its value has at least 17 bytes (empty or missing values are skipped without error); the record keeps the raw value and its kind, and its key id is 16 hex digits that read back to the key-id slice |
| RpmHeaderModel.SignaturesFrom | katello_certs_tools/rhn_rpm.py:101-127 | visiting a list of tags yields at most one record per tag |
| RpmHeaderModel.SignaturesFromSnoc | katello_certs_tools/rhn_rpm.py:101-127 | visiting one more tag only appends that tag's record, if any |
| RpmHeaderModel.Signatures | katello_certs_tools/rhn_rpm.py:94-100 | a header yields at most four records |
| RpmHeaderModel.SignaturesInTagOrder | katello_certs_tools/rhn_rpm.py:95-101 | the records are those of dsa, rsa, gpg and pgp, in that order, each present exactly when its tag qualifies |
| RpmHeaderModel.SignatureRecordsWellFormed | katello_certs_tools/rhn_rpm.py:105-127 | every record's raw value is the unchanged value of a visited tag of the same kind, at least 17 bytes long; its key id is 16 hex digits that read back to the bucket-selected slice |
| RpmHeaderModel.UnsignedHeaderHasOnlyRsaSignatures | katello_certs_tools/rhn_rpm.py:85-127 | a header that `is_signed` calls unsigned yields no record other than an rsa one |
| RpmHeaderModel.RpmHeader.constructor | katello_certs_tools/rhn_rpm.py:58-63 | the wrapper keeps the header and `is_source`, sets packaging to `rpm`, starts with no signatures and ends with exactly the extracted records |
| RpmHeaderModel.RpmHeader.ExtractSignatures | katello_certs_tools/rhn_rpm.py:94-127 | the loop only appends: the new list is the old list followed by the header's records |
| PackageOrder.Decimal | katello_certs_tools/rhn_rpm.py:276 | `str()` of a non-negative int is a non-empty string of decimal digits that denotes the int |
| PackageOrder.StrIntInjective | katello_certs_tools/rhn_rpm.py:276 | two ints print the same text iff they are equal, so an int epoch reaches `labelCompare` as the text of its own value |
| PackageOrder.Str | katello_certs_tools/rhn_rpm.py:276 | `str()` is empty only for the empty string; `None` and ints print non-empty |
| PackageOrder.BuildEvr | katello_certs_tools/rhn_rpm.py:274-279 | positions 3, 1, 2 become `[epoch, version, release]`, stringified; the epoch becomes None iff it was the empty string |
| PackageOrder.NvreCompare | katello_certs_tools/rhn_rpm.py:273-283 | fails (ValueError) iff the names differ; otherwise it is `labelCompare` of the two reshaped tuples |
| PackageOrder.NvreCompareSeesOnlyStrings | katello_certs_tools/rhn_rpm.py:274-283 | tuples with the same name and the same stringified fields compare alike |
| PackageOrder.NvreCompareAntisymmetric | katello_certs_tools/rhn_rpm.py:280-283 | swapping the tuples keeps the error case and flips the verdict's sign whenever `labelCompare` does |
| PackageOrder.StrLessIrreflexive | katello_certs_tools/rhn_rpm.py:297 | no name is less than itself |
| PackageOrder.StrLessTrichotomy | katello_certs_tools/rhn_rpm.py:297 | of two different names exactly one is less than the other |
| PackageOrder.StrLessTransitive | katello_certs_tools/rhn_rpm.py:297 | Python's string `<` is transitive |
| PackageOrder.LabelEpoch | katello_certs_tools/rhn_rpm.py:292-295 | a truthy epoch becomes its string, and `None` or `0` is passed on unchanged |
| PackageOrder.LabelEvr | katello_certs_tools/rhn_rpm.py:290-295 | a non-zero int epoch always reaches `labelCompare` as text (an int epoch in the list can only be 0), and the epoch in the list is truthy iff the package's epoch is |
| PackageOrder.HdrLabelCompare | katello_certs_tools/rhn_rpm.py:286-299 | -1 when name1 < name2, 1 when name1 > name2, and `labelCompare` of the EVR lists only when the names are equal |
| PackageOrder.HdrLabelCompareAntisymmetric | katello_certs_tools/rhn_rpm.py:286-299 | swapping the packages flips the verdict's sign whenever `labelCompare` does |
| PackageOrder.HdrLabelCompareTransitive | katello_certs_tools/rhn_rpm.py:286-309 | "at most" under `hdrLabelCompare` is transitive whenever it is under `labelCompare`, so the sort in `sortRPMs` sees a consistent order |

## Findings

| source | as written | input that shows it | evidently intended | confidence | as-written member | corrected member |
|---|---|---|---|---|---|---|
| katello_certs_tools/rhn_rpm.py:78-80 | the tag value is decoded with `.decode('utf-8')` before being looked up among the integer keys of `PGPHASHALGO` | digest tag value 8 (SHA-256): an int has no `decode` (AttributeError); the text `"8"` is not an integer key, so the answer is `md5` | look up the tag's integer value, giving `sha256` | high (not executed) | RpmHeaderModel.ChecksumTypeAsWritten | RpmHeaderModel.ChecksumType |

## Left out

- `get_package_header` (lines 187-229) is left out. It is I/O and foreign runtime: it opens the file or descriptor, uses the shared `SHARED_TS` transaction, sets rpm macros and calls `hdrFromFdno`.
- `MatchIterator`, `getInstalledHeader` and `headerLoad` (lines 232-266, 312-321) are left out. They query the installed RPM database or load headers through the rpm binding.
- `labelCompare` (lines 269-270) and the algorithm behind `rpm.labelCompare` are left out. It is foreign C code, so the model passes it as a parameter and assumes nothing about it except in the lemma requirements.
- `hdrLabelCompareKey` and `sortRPMs` (lines 302-309) are left out. They open every file through `get_package_header` and call Python's sort. The model only states the order they rely on (`HdrLabelCompareTransitive`, `HdrLabelCompareAntisymmetric`).
- `RPM_Header.__getitem__`, `__getattr__` and `__nonzero__` (lines 65-75) are left out. They delegate to the opaque rpm header.
- The `__main__` block (lines 324-339) is left out. It is a command-line driver.
- `InvalidPackageError`, `error = rpm.error` and the `RPMTAG_FILEDIGESTALGO` assignment (lines 24-27, 52-53) are left out. They are glue around the binding.
- The decoded header is reduced to the four signature tags and the digest-algorithm tag. Decoding header bytes into tags is the binding's job.
- `is_signed` takes whether the binding defines `RPMTAG_DSAHEADER` as a parameter, because that depends on the installed binding.
- `RpmHeader.constructor` assumes the binding defines the four signature tag constants. Lines 96-99 evaluate `rpm.RPMTAG_DSAHEADER` without a guard, so on a binding without it `__init__` raises `AttributeError` at line 63; that exception is not modelled. Consequently `IsSigned(h, false)` is never reached for a constructed wrapper: it models the `hasattr` guard at line 86 on its own.
- `ChecksumTypeAsWritten`: a `UnicodeDecodeError` for a value that is not valid UTF-8 is not modelled; bytes values give `md5`.
- `HdrLabelCompare`: version and release are taken as already-decoded text; a failing `.decode('utf-8')` is not modelled.
- `BuildEvr`: the `map(...)` at line 276 gives a list under Python 2 and an iterator under Python 3. The line after it indexes the result, so the model uses the list semantics.
- `PackageFile` models only absolute seeks to a non-negative offset and non-negative relative seeks (`seek(n, 1)` with `n >= 0`). Negative relative offsets and end-relative seeks (`seek(n, 2)`) are left out, because the code makes none.
