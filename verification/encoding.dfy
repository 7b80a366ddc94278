/** EncodingDetector: the charset of an end-user licence file, from the
    byte order mark (U+FEFF, Unicode Standard section 23.8) at its start,
    encoded as each encoding scheme of Unicode Standard section 3.10 lays
    it out. */
module EncodingDetector {
  import opened Wrappers
  import opened Files
  import opened Mojo

  datatype Charset = UTF_32BE | UTF_32LE | UTF_8 | UTF_16BE | UTF_16LE | US_ASCII

  /** Charset.name(). */
  function Name(c: Charset): string {
    match c
    case UTF_32BE => "UTF-32BE"
    case UTF_32LE => "UTF-32LE"
    case UTF_8 => "UTF-8"
    case UTF_16BE => "UTF-16BE"
    case UTF_16LE => "UTF-16LE"
    case US_ASCII => "US-ASCII"
  }

  const Utf32BeBom: seq<bv8> := [0x00, 0x00, 0xFE, 0xFF]
  const Utf32LeBom: seq<bv8> := [0xFF, 0xFE, 0x00, 0x00]
  const Utf8Bom: seq<bv8> := [0xEF, 0xBB, 0xBF]
  const Utf16BeBom: seq<bv8> := [0xFE, 0xFF]
  const Utf16LeBom: seq<bv8> := [0xFF, 0xFE]

  /** The message key of a licence file that cannot be read. */
  const UnableToDetectEncodingKey: string := "JetMojo.Package.Eula.UnableToDetectEncoding"

  /** The byte order mark of each charset that has one. */
  function BomOf(c: Charset): seq<bv8>
    requires c != US_ASCII
  {
    match c
    case UTF_32BE => Utf32BeBom
    case UTF_32LE => Utf32LeBom
    case UTF_8 => Utf8Bom
    case UTF_16BE => Utf16BeBom
    case UTF_16LE => Utf16LeBom
  }

  /** The order in which detectEncodingByBom tries the marks. */
  const Cascade: seq<Charset> := [UTF_32BE, UTF_32LE, UTF_8, UTF_16BE, UTF_16LE]

  /** `startsWith`: the two arrays agree on their first min(|buffer|,
      |prefix|) bytes. */
  function StartsWithBytes(buffer: seq<bv8>, prefix: seq<bv8>): (r: bool)
    ensures r <==> forall k :: 0 <= k < |buffer| && k < |prefix| ==> buffer[k] == prefix[k]
  {
    AgreeFrom(buffer, prefix, 0)
  }

  /** The loop of `startsWith` from index `i` on. */
  function AgreeFrom(buffer: seq<bv8>, prefix: seq<bv8>, i: nat): (r: bool)
    ensures r <==> forall k :: i <= k < |buffer| && k < |prefix| ==> buffer[k] == prefix[k]
    decreases |buffer| - i
  {
    if i >= |buffer| || i >= |prefix| then true
    else buffer[i] == prefix[i] && AgreeFrom(buffer, prefix, i + 1)
  }

  /** The 4-byte buffer `detectEncoding` fills: the first four bytes of
      the file, zero where the file is shorter. */
  function ReadBom(data: seq<bv8>): (r: seq<bv8>)
    ensures |r| == 4
    ensures forall k :: 0 <= k < 4 ==> r[k] == (if k < |data| then data[k] else 0)
  {
    seq(4, k requires 0 <= k < 4 => if k < |data| then data[k] else 0)
  }

  /** detectEncodingByBom: the first mark of the cascade the buffer starts
      with decides; no mark means US-ASCII. */
  function DetectEncodingByBom(bom: seq<bv8>): Charset {
    if StartsWithBytes(bom, Utf32BeBom) then UTF_32BE
    else if StartsWithBytes(bom, Utf32LeBom) then UTF_32LE
    else if StartsWithBytes(bom, Utf8Bom) then UTF_8
    else if StartsWithBytes(bom, Utf16BeBom) then UTF_16BE
    else if StartsWithBytes(bom, Utf16LeBom) then UTF_16LE
    else US_ASCII
  }

  /** The charset detectEncoding reports for a file's content, as written:
      the marks are matched against the zero-padded buffer. */
  function DetectEncodingAsWritten(data: seq<bv8>): Charset {
    DetectEncodingByBom(ReadBom(data))
  }

  /** `prefix` is really present at the start of `data`. */
  predicate HasPrefix(data: seq<bv8>, prefix: seq<bv8>) {
    |prefix| <= |data| && forall k :: 0 <= k < |prefix| ==> data[k] == prefix[k]
  }

  /** The corrected detection: a mark counts only if the file holds all of
      its bytes; the cascade and its order are unchanged. */
  function DetectEncoding(data: seq<bv8>): Charset {
    if HasPrefix(data, Utf32BeBom) then UTF_32BE
    else if HasPrefix(data, Utf32LeBom) then UTF_32LE
    else if HasPrefix(data, Utf8Bom) then UTF_8
    else if HasPrefix(data, Utf16BeBom) then UTF_16BE
    else if HasPrefix(data, Utf16LeBom) then UTF_16LE
    else US_ASCII
  }

  /** detectEncoding on a file: its charset's name, or a failure naming the
      file when it cannot be read. */
  function DetectFileEncoding(t: Tree, denied: set<Path>, eula: Path): (r: Result<string, MojoException>)
    ensures r.Failure? <==> !(IsFile(t, eula) && eula !in denied)
    ensures r.Failure? ==> r.error == MojoFailureException(UnableToDetectEncodingKey, [eula])
    ensures r.Success? ==> r.value == Name(DetectEncoding(t[eula].data))
  {
    match ReadBytes(t, denied, eula)
    case Failure(_) => Failure(MojoFailureException(UnableToDetectEncodingKey, [eula]))
    case Success(data) => Success(Name(DetectEncoding(data)))
  }

  // ---------------------------------------------------------------------
  // Properties of the cascade

  /** A reported charset's mark is at the start of the file, and no mark
      tried before it is. */
  lemma FirstMarkWins(data: seq<bv8>, i: nat)
    requires i < |Cascade|
    ensures DetectEncoding(data) == Cascade[i] <==>
      HasPrefix(data, BomOf(Cascade[i])) && forall j :: 0 <= j < i ==> !HasPrefix(data, BomOf(Cascade[j]))
  {
    if i == 0 {
      assert Cascade[0] == UTF_32BE;
    } else if i == 1 {
      assert Cascade[0] == UTF_32BE && Cascade[1] == UTF_32LE;
    } else if i == 2 {
      assert Cascade[0] == UTF_32BE && Cascade[1] == UTF_32LE && Cascade[2] == UTF_8;
    } else if i == 3 {
      assert Cascade[0] == UTF_32BE && Cascade[1] == UTF_32LE && Cascade[2] == UTF_8;
      assert Cascade[3] == UTF_16BE;
    } else {
      assert Cascade[0] == UTF_32BE && Cascade[1] == UTF_32LE && Cascade[2] == UTF_8;
      assert Cascade[3] == UTF_16BE && Cascade[4] == UTF_16LE;
    }
  }

  /** US-ASCII means that no mark at all starts the file. */
  lemma NoMarkIsAscii(data: seq<bv8>)
    ensures DetectEncoding(data) == US_ASCII <==>
      forall c :: c in Cascade ==> !HasPrefix(data, BomOf(c))
  {
    if DetectEncoding(data) == US_ASCII {
      forall c | c in Cascade
        ensures !HasPrefix(data, BomOf(c))
      {
        assert c == UTF_32BE || c == UTF_32LE || c == UTF_8 || c == UTF_16BE || c == UTF_16LE;
      }
    } else {
      var c := DetectEncoding(data);
      assert c in Cascade && HasPrefix(data, BomOf(c));
    }
  }

  /** `FF FE 00 00` starts with the UTF-16LE mark too, but the longer
      UTF-32LE mark is tried first. */
  lemma Utf32LeBeforeUtf16Le(rest: seq<bv8>)
    ensures HasPrefix(Utf32LeBom + rest, Utf16LeBom)
    ensures DetectEncodingAsWritten(Utf32LeBom + rest) == UTF_32LE
    ensures DetectEncoding(Utf32LeBom + rest) == UTF_32LE
  {
    var data := Utf32LeBom + rest;
    assert data[0] == 0xFF && data[1] == 0xFE && data[2] == 0 && data[3] == 0;
  }

  /** Only the first four bytes are read: what follows them never changes
      the result. */
  lemma FirstFourBytesDecide(data: seq<bv8>, more: seq<bv8>)
    requires |data| >= 4
    ensures DetectEncodingAsWritten(data + more) == DetectEncodingAsWritten(data)
    ensures DetectEncoding(data + more) == DetectEncoding(data)
  {
    assert ReadBom(data + more) == ReadBom(data);
    assert forall k :: 0 <= k < 4 ==> (data + more)[k] == data[k];
  }

  /** A short file is classified as its bytes followed by zeros. */
  lemma ShortFileIsPadded(data: seq<bv8>)
    requires |data| < 4
    ensures DetectEncodingAsWritten(data) == DetectEncodingByBom(data + seq(4 - |data|, _ => 0 as bv8))
  {
    assert ReadBom(data) == data + seq(4 - |data|, _ => 0 as bv8);
  }

  /** A one-byte file has no mark: US-ASCII. */
  lemma OneByteFileIsAscii(b: bv8)
    ensures DetectEncodingAsWritten([b]) == US_ASCII
    ensures DetectEncoding([b]) == US_ASCII
  {
    var bom := ReadBom([b]);
    assert bom[1] == 0 && bom[2] == 0;
    assert [b][0] == b;
  }

  /** Each mark is reported as its own charset, as long as no mark tried
      earlier is also present. */
  lemma MarksAreRecognised(rest: seq<bv8>)
    ensures DetectEncoding(Utf32BeBom + rest) == UTF_32BE
    ensures DetectEncoding(Utf8Bom + rest) == UTF_8
    ensures DetectEncoding(Utf16BeBom + rest) == UTF_16BE
    ensures (|rest| < 2 || rest[..2] != [0, 0]) ==> DetectEncoding(Utf16LeBom + rest) == UTF_16LE
  {
    assert (Utf32BeBom + rest)[2] == 0xFE;
    assert (Utf8Bom + rest)[0] == 0xEF;
    assert (Utf16BeBom + rest)[0] == 0xFE;
    var le := Utf16LeBom + rest;
    assert le[0] == 0xFF && le[1] == 0xFE;
    if |rest| >= 2 && HasPrefix(le, Utf32LeBom) {
      assert le[2] == rest[0] && le[3] == rest[1];
      assert rest[..2] == [0, 0];
    }
  }

  /** The two detections agree on every file of at least four bytes:
      against a full buffer `startsWith` is the ordinary prefix test, since
      no mark is longer than four bytes. */
  lemma AgreeOnLongFiles(data: seq<bv8>)
    requires |data| >= 4
    ensures DetectEncodingAsWritten(data) == DetectEncoding(data)
  {
    var bom := ReadBom(data);
    assert forall k :: 0 <= k < 4 ==> bom[k] == data[k];
  }

  /** As written, a two-byte file holding only the UTF-16LE mark (an empty
      UTF-16LE text) is padded to `FF FE 00 00` and reported as UTF-32LE. */
  lemma BareUtf16LeMarkAsWritten()
    ensures DetectEncodingAsWritten(Utf16LeBom) == UTF_32LE
    ensures DetectEncoding(Utf16LeBom) == UTF_16LE
  {
    var bom := ReadBom(Utf16LeBom);
    assert bom[0] == 0xFF && bom[1] == 0xFE && bom[2] == 0 && bom[3] == 0;
  }

  /** Corrected, a file that starts with the UTF-16LE mark is UTF-16LE
      unless it holds the full UTF-32LE mark. */
  lemma Utf16LeMarkDecides(data: seq<bv8>)
    requires HasPrefix(data, Utf16LeBom) && !HasPrefix(data, Utf32LeBom)
    ensures DetectEncoding(data) == UTF_16LE
  {
    assert data[0] == 0xFF && data[1] == 0xFE;
  }
}
