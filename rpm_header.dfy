/** The package-header wrapper: signature key ids extracted from the
    signature tags of a decoded header, the file-digest algorithm name and the
    signed/unsigned verdict. Decoding the header is the rpm binding's job; the
    model receives the decoded tag values. */
module RpmHeaderModel {
  import opened Results
  import opened Bytes

  /** The binary signature tags `_extract_signatures` and `is_signed` read. */
  datatype SigTag = DsaHeader | RsaHeader | SigGpg | SigPgp

  /** A decoded header as far as this code reads it: the value of each
      signature tag (a missing key is Python's `None`) and the value of
      `RPMTAG_FILEDIGESTALGO` (`None` when the tag is absent). */
  datatype Header = Header(sigTags: map<SigTag, seq<Byte>>, fileDigestAlgo: Option<int>)

  /** The value of a signature tag; an absent tag reads as the empty (falsy) value. */
  function TagBytes(h: Header, t: SigTag): seq<Byte> {
    if t in h.sigTags then h.sigTags[t] else []
  }

  // ---------------------------------------------------------------------------
  // checksum_type

  /** `PGPHASHALGO`: rpm's numbering of file-digest algorithms (there is no 4). */
  const PgpHashAlgo: map<int, string> := map[
    1 := "md5",
    2 := "sha1",
    3 := "ripemd160",
    5 := "md2",
    6 := "tiger192",
    7 := "haval-5-160",
    8 := "sha256",
    9 := "sha384",
    10 := "sha512"
  ]

  /** `checksum_type` as intended: the name of the file-digest algorithm,
      `"md5"` when the tag is falsy or its value has no entry in the table. */
  function ChecksumType(h: Header): (r: string)
    ensures r == "md5" || r in PgpHashAlgo.Values
    ensures h.fileDigestAlgo.Some? && h.fileDigestAlgo.value in PgpHashAlgo
            ==> r == PgpHashAlgo[h.fileDigestAlgo.value]
    ensures h.fileDigestAlgo.None? || h.fileDigestAlgo.value !in PgpHashAlgo ==> r == "md5"
  {
    match h.fileDigestAlgo
    case Some(algo) =>
      if algo != 0 && algo in PgpHashAlgo then PgpHashAlgo[algo] else "md5"
    case None => "md5"
  }

  /** The digest-algorithm tag value as the binding hands it over. */
  datatype RawTagValue = RawNone | RawInt(n: int) | RawBytes(b: seq<Byte>)

  /** An `int` has no `decode` method: Python raises `AttributeError`. */
  datatype ChecksumTypeError = NoDecodeAttribute

  /** `checksum_type` as written: a truthy value is decoded as UTF-8 text
      before its membership among the integer keys of the table is tested.
      An integer value raises; decoded text is never an integer key, so the
      lookup never happens. */
  function ChecksumTypeAsWritten(v: RawTagValue): (r: Result<string, ChecksumTypeError>)
    ensures r.Ok? ==> r.value == "md5"
    ensures r.Err? <==> v.RawInt? && v.n != 0
  {
    match v
    case RawNone => Ok("md5")
    case RawInt(n) => if n == 0 then Ok("md5") else Err(NoDecodeAttribute)
    case RawBytes(b) => Ok("md5")  // `b != []`: the decoded text is not among the keys
  }

  /** A package whose files are digested with SHA-256 (tag value 8): the code
      as written raises or reports `md5`, the intended lookup reports `sha256`. */
  lemma ChecksumTypeAsWrittenMissesSha256()
    ensures ChecksumTypeAsWritten(RawInt(8)) == Err(NoDecodeAttribute)
    ensures ChecksumTypeAsWritten(RawBytes([56])) == Ok("md5")
    ensures ChecksumType(Header(map[], Some(8))) == "sha256"
  {
  }

  /** The values that have no entry in the table fall back to `"md5"`, and
      only values 2 to 10 other than 4 name another algorithm. */
  lemma ChecksumTypeFallsBackToMd5(h: Header)
    ensures h.fileDigestAlgo in {None, Some(0), Some(4)} ==> ChecksumType(h) == "md5"
    ensures h.fileDigestAlgo.Some? && (h.fileDigestAlgo.value < 1 || h.fileDigestAlgo.value > 10)
            ==> ChecksumType(h) == "md5"
    ensures ChecksumType(h) != "md5"
            <==> h.fileDigestAlgo.Some? && 2 <= h.fileDigestAlgo.value <= 10 && h.fileDigestAlgo.value != 4
  {
  }

  // ---------------------------------------------------------------------------
  // is_signed

  /** `is_signed`: 1 when a GPG or PGP signature is present, or a DSA header
      signature is present and the binding defines `RPMTAG_DSAHEADER`;
      otherwise 0. An RSA header signature alone does not count. */
  function IsSigned(h: Header, bindingHasDsaHeader: bool): (r: int)
    ensures r == 0 || r == 1
    ensures r == 1 <==> TagBytes(h, SigGpg) != [] || TagBytes(h, SigPgp) != []
                        || (bindingHasDsaHeader && TagBytes(h, DsaHeader) != [])
  {
    var dsaHeader := if bindingHasDsaHeader then TagBytes(h, DsaHeader) else [];
    if TagBytes(h, SigGpg) != [] || TagBytes(h, SigPgp) != [] || dsaHeader != [] then 1 else 0
  }

  // ---------------------------------------------------------------------------
  // Key ids

  /** Values shorter than this hold no key id and are skipped. */
  const MinSignatureLength: nat := 17

  /** Where the 8-byte key id starts in a signature value of `len` bytes, by the
      length-bucketed guess the source makes (first matching bucket wins):
      a V3 DSA, V4 DSA, V3 RSA or V4 RSA OpenPGP signature packet. */
  function KeyIdOffset(len: nat): (off: nat)
    requires len >= MinSignatureLength
    ensures off + 8 <= len
    ensures off == 9 || off == 10 || off == 18 || off == 19
  {
    if len <= 65 then 9          // V3 DSA signature
    else if len <= 72 then 18    // V4 DSA signature
    else if len <= 536 then 10   // V3 RSA/SHA256 signature
    else 19                      // V4 RSA/SHA signature
  }

  /** The key-id slice of a signature value: Python's slice `ret[off:off+8]`,
      which for every value long enough to be kept is never clamped. */
  function KeyIdBytes(sig: seq<Byte>): (k: seq<Byte>)
    requires |sig| >= MinSignatureLength
    ensures |k| == 8
    ensures k == sig[KeyIdOffset(|sig|) .. KeyIdOffset(|sig|) + 8]
  {
    var off := KeyIdOffset(|sig|);
    PySlice(sig, off, off + 8)
  }

  /** A lower-case hexadecimal digit, as `%x` prints it. */
  predicate IsLowerHex(c: char) {
    '0' <= c <= '9' || 'a' <= c <= 'f'
  }

  function HexDigit(n: nat): (c: char)
    requires n < 16
    ensures IsLowerHex(c)
  {
    if n < 10 then ('0' as int + n) as char else ('a' as int + n - 10) as char
  }

  function HexDigitValue(c: char): (n: nat)
    requires IsLowerHex(c)
    ensures n < 16 && HexDigit(n) == c
  {
    if c <= '9' then c as int - '0' as int else c as int - 'a' as int + 10
  }

  /** `"%02x" % b`: exactly two lower-case hex digits, high nibble first. */
  function HexByte(b: Byte): (s: string)
    ensures |s| == 2 && IsLowerHex(s[0]) && IsLowerHex(s[1])
    ensures HexDigitValue(s[0]) * 16 + HexDigitValue(s[1]) == b
  {
    [HexDigit(b / 16), HexDigit(b % 16)]
  }

  /** `"%02x" * len(bs) % tuple(bs)`: the bytes rendered in order, two digits each. */
  function Hex(bs: seq<Byte>): (s: string)
    ensures |s| == 2 * |bs|
    ensures forall i :: 0 <= i < |s| ==> IsLowerHex(s[i])
  {
    if bs == [] then [] else HexByte(bs[0]) + Hex(bs[1..])
  }

  /** Text made of pairs of lower-case hex digits. */
  predicate IsHexText(s: string) {
    |s| % 2 == 0 && forall i :: 0 <= i < |s| ==> IsLowerHex(s[i])
  }

  /** Reads back a string of hex digit pairs: the inverse of `Hex`. */
  function UnHex(s: string): (bs: seq<Byte>)
    requires IsHexText(s)
    ensures |bs| == |s| / 2
  {
    if s == [] then [] else [HexDigitValue(s[0]) * 16 + HexDigitValue(s[1])] + UnHex(s[2..])
  }

  /** Byte `k` is rendered at characters `2k` and `2k + 1`. */
  lemma {:induction false} HexAt(bs: seq<Byte>, k: nat)
    requires k < |bs|
    ensures Hex(bs)[2 * k .. 2 * k + 2] == HexByte(bs[k])
  {
    if k > 0 {
      HexAt(bs[1..], k - 1);
      assert Hex(bs) == HexByte(bs[0]) + Hex(bs[1..]);
    }
  }

  /** The rendering loses nothing: the bytes are recovered from the text. */
  lemma {:induction false} UnHexHex(bs: seq<Byte>)
    ensures UnHex(Hex(bs)) == bs
  {
    if bs != [] {
      var s := Hex(bs);
      assert s == HexByte(bs[0]) + Hex(bs[1..]);
      assert s[2..] == Hex(bs[1..]);
      UnHexHex(bs[1..]);
    }
  }

  // ---------------------------------------------------------------------------
  // Signature records

  /** One entry of `self.signatures`: the signature kind, the key id and the
      raw tag value. */
  datatype SignatureRecord = SignatureRecord(signatureType: string, keyId: string, signature: seq<Byte>)

  /** The tags visited by `_extract_signatures`, in order, with the kind each
      one yields. */
  const HeaderTags: seq<(SigTag, string)> :=
    [(DsaHeader, "dsa"), (RsaHeader, "rsa"), (SigGpg, "gpg"), (SigPgp, "pgp")]

  /** The record one tag contributes: none for a falsy value or one shorter
      than 17 bytes, otherwise the raw value with its key id. */
  function RecordFor(h: Header, tag: SigTag, sigType: string): (r: Option<SignatureRecord>)
    ensures r.Some? <==> |TagBytes(h, tag)| >= MinSignatureLength
    ensures r.Some? ==> r.value.signatureType == sigType && r.value.signature == TagBytes(h, tag)
    ensures r.Some? ==> |r.value.keyId| == 16 && IsHexText(r.value.keyId)
                        && UnHex(r.value.keyId) == KeyIdBytes(r.value.signature)
  {
    var ret := TagBytes(h, tag);
    if ret == [] then None
    else if |ret| < MinSignatureLength then None
    else
      var keyId := Hex(KeyIdBytes(ret));
      UnHexHex(KeyIdBytes(ret));
      Some(SignatureRecord(sigType, keyId, ret))
  }

  function OptionToSeq<T>(o: Option<T>): (s: seq<T>)
    ensures |s| <= 1
  {
    match o
    case Some(v) => [v]
    case None => []
  }

  /** The records a run over `tags` appends, in the order of `tags`. */
  function SignaturesFrom(h: Header, tags: seq<(SigTag, string)>): (sigs: seq<SignatureRecord>)
    ensures |sigs| <= |tags|
  {
    if tags == [] then []
    else
      var last := tags[|tags| - 1];
      SignaturesFrom(h, tags[..|tags| - 1]) + OptionToSeq(RecordFor(h, last.0, last.1))
  }

  lemma AppendAssociative<T>(a: seq<T>, b: seq<T>, c: seq<T>)
    ensures a + (b + c) == (a + b) + c
  {
  }

  /** One more tag visited appends that tag's record, if any. */
  lemma SignaturesFromSnoc(h: Header, tags: seq<(SigTag, string)>, i: nat)
    requires i < |tags|
    ensures SignaturesFrom(h, tags[..i + 1])
            == SignaturesFrom(h, tags[..i]) + OptionToSeq(RecordFor(h, tags[i].0, tags[i].1))
  {
    assert tags[..i + 1][..i] == tags[..i];
  }

  /** The records `_extract_signatures` produces for a header. */
  function Signatures(h: Header): (sigs: seq<SignatureRecord>)
    ensures |sigs| <= 4
  {
    SignaturesFrom(h, HeaderTags)
  }

  /** The records come in the fixed order dsa, rsa, gpg, pgp, each present
      exactly when its tag holds at least 17 bytes. */
  lemma SignaturesInTagOrder(h: Header)
    ensures Signatures(h)
            == OptionToSeq(RecordFor(h, DsaHeader, "dsa")) + OptionToSeq(RecordFor(h, RsaHeader, "rsa"))
               + OptionToSeq(RecordFor(h, SigGpg, "gpg")) + OptionToSeq(RecordFor(h, SigPgp, "pgp"))
  {
    var tags := HeaderTags;
    assert tags[..1][..0] == [] && tags[..2][..1] == tags[..1];
    assert tags[..3][..2] == tags[..2] && tags[..4][..3] == tags[..3] && tags[..4] == tags;
    assert SignaturesFrom(h, tags[..1]) == OptionToSeq(RecordFor(h, DsaHeader, "dsa"));
    assert SignaturesFrom(h, tags[..2]) == SignaturesFrom(h, tags[..1]) + OptionToSeq(RecordFor(h, RsaHeader, "rsa"));
    assert SignaturesFrom(h, tags[..3]) == SignaturesFrom(h, tags[..2]) + OptionToSeq(RecordFor(h, SigGpg, "gpg"));
    assert SignaturesFrom(h, tags) == SignaturesFrom(h, tags[..3]) + OptionToSeq(RecordFor(h, SigPgp, "pgp"));
  }

  /** Every record keeps its tag's raw value unchanged and carries a 16-digit
      lower-case key id read from the bucket-selected slice. */
  lemma {:induction false} SignatureRecordsWellFormed(h: Header, tags: seq<(SigTag, string)>)
    ensures forall r | r in SignaturesFrom(h, tags) ::
              |r.signature| >= MinSignatureLength
              && (exists k :: 0 <= k < |tags| && tags[k].1 == r.signatureType && TagBytes(h, tags[k].0) == r.signature)
              && |r.keyId| == 16 && IsHexText(r.keyId) && UnHex(r.keyId) == KeyIdBytes(r.signature)
  {
    if tags != [] {
      var init := tags[..|tags| - 1];
      SignatureRecordsWellFormed(h, init);
      forall r | r in SignaturesFrom(h, tags)
        ensures exists k :: 0 <= k < |tags| && tags[k].1 == r.signatureType && TagBytes(h, tags[k].0) == r.signature
      {
        if r in SignaturesFrom(h, init) {
          var k :| 0 <= k < |init| && init[k].1 == r.signatureType && TagBytes(h, init[k].0) == r.signature;
          assert tags[k] == init[k];
        } else {
          assert tags[|tags| - 1].1 == r.signatureType;
        }
      }
    }
  }

  /** A header `is_signed` rejects (with `RPMTAG_DSAHEADER` defined) yields at
      most an RSA record. */
  lemma UnsignedHeaderHasOnlyRsaSignatures(h: Header)
    requires IsSigned(h, true) == 0
    ensures forall r | r in Signatures(h) :: r.signatureType == "rsa"
  {
    SignaturesInTagOrder(h);
  }

  /** The header wrapper: the decoded header, the source-package flag, the
      packaging kind and the signature records extracted at construction. */
  class RpmHeader {
    const hdr: Header
    const isSource: Option<bool>
    const packaging: string
    var signatures: seq<SignatureRecord>

    /** `RPM_Header.__init__`: starts with no records and extracts them. */
    constructor (hdr: Header, isSource: Option<bool>)
      ensures this.hdr == hdr && this.isSource == isSource && packaging == "rpm"
      ensures signatures == Signatures(hdr)
    {
      this.hdr := hdr;
      this.isSource := isSource;
      packaging := "rpm";
      signatures := [];
      new;
      ExtractSignatures();
    }

    /** `_extract_signatures`: visits the signature tags in order and appends
        one record per value long enough to hold a key id. */
    method ExtractSignatures()
      modifies this
      ensures signatures == old(signatures) + Signatures(hdr)
    {
      ghost var before := signatures;
      var headerTags := HeaderTags;
      for i := 0 to |headerTags|
        invariant signatures == before + SignaturesFrom(hdr, headerTags[..i])
      {
        var ht, sigType := headerTags[i].0, headerTags[i].1;
        SignaturesFromSnoc(hdr, headerTags, i);
        var ret := TagBytes(hdr, ht);
        if ret == [] {
          assert signatures == before + SignaturesFrom(hdr, headerTags[..i + 1]) by {
            assert RecordFor(hdr, ht, sigType) == None;
            assert SignaturesFrom(hdr, headerTags[..i]) + [] == SignaturesFrom(hdr, headerTags[..i]);
          }
          continue;
        }
        var retLen := |ret|;
        if retLen < 17 {
          assert signatures == before + SignaturesFrom(hdr, headerTags[..i + 1]) by {
            assert RecordFor(hdr, ht, sigType) == None;
            assert SignaturesFrom(hdr, headerTags[..i]) + [] == SignaturesFrom(hdr, headerTags[..i]);
          }
          continue;
        }
        // Get the key id: the slice start depends on the signature packet's size.
        var keyIdStart :=
          if retLen <= 65 then 9          // V3 DSA signature
          else if retLen <= 72 then 18    // V4 DSA signature
          else if retLen <= 536 then 10   // V3 RSA/SHA256 signature
          else 19;                        // V4 RSA/SHA signature
        var keyId := PySlice(ret, keyIdStart, keyIdStart + 8);
        var record := SignatureRecord(sigType, Hex(keyId), ret);
        assert signatures + [record] == before + SignaturesFrom(hdr, headerTags[..i + 1]) by {
          assert keyId == KeyIdBytes(ret);
          assert RecordFor(hdr, ht, sigType) == Some(record);
          AppendAssociative(before, SignaturesFrom(hdr, headerTags[..i]), [record]);
        }
        signatures := signatures + [record];
      }
      assert headerTags[..|headerTags|] == headerTags;
    }
  }
}
