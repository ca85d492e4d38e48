/** The OCR text reader of `pdf_ocr.py`: an incremental UTF-8 decoder feeding a streaming strip,
    and the loop that joins the pages. Deadlines are not modelled. */
module PdfOcr {
  import opened Text
  import opened Utf8
  import opened BoundedText
  import opened Lines

  const MAX_OCR_PAGES := 30
  const MAX_OCR_SIDE_PIXELS := 2400
  const MAX_OCR_IMAGE_BYTES := MAX_OCR_SIDE_PIXELS * MAX_OCR_SIDE_PIXELS + 1024
  const MAX_OCR_RAW_TEXT_BYTES := 16 * 1024 * 1024
  const OCR_READ_CHUNK_BYTES := 8192

  datatype ReadError = RawLimit | Undecodable | TextLimit

  datatype OcrError = Encrypted | PageLimit | InvalidLimit | RasterLimit | Reading(cause: ReadError)

  datatype Result<+E> = Ok(value: string) | Err(error: E)

  /** `stream.read(size)`: any non-empty amount up to `size`, and nothing only at the end. */
  method Read(file: seq<Byte>, position: nat, size: nat) returns (data: seq<Byte>)
    requires position <= |file| && size > 0
    ensures |data| <= size && position + |data| <= |file| && data == file[position..position + |data|]
    ensures |data| == 0 <==> position == |file|
  {
    var most := if size <= |file| - position then size else |file| - position;
    var amount: nat :| amount <= most && (amount == 0 <==> most == 0);
    data := file[position..position + amount];
  }

  /** The file is the UTF-8 form of a text that strips to `value`. */
  ghost predicate Reads(file: seq<Byte>, value: string) {
    exists text :: IsUtf8(file, text) && value == Strip(text)
  }

  ghost predicate NotUtf8(file: seq<Byte>) {
    forall value :: !Reads(file, value)
  }

  ghost predicate Oversized(file: seq<Byte>, maximum: nat) {
    forall value :: Reads(file, value) ==> Size(value) > maximum
  }

  /** The whole contract of the reader: it succeeds exactly on a file within the raw limit whose
      stripped text fits, with exactly that text, and each error names what is wrong with the file. */
  ghost predicate Explains(file: seq<Byte>, maximum: nat, r: Result<ReadError>) {
    match r
    case Ok(value) => |file| <= MAX_OCR_RAW_TEXT_BYTES && Reads(file, value) && Size(value) <= maximum
    case Err(RawLimit) => |file| > MAX_OCR_RAW_TEXT_BYTES
    case Err(Undecodable) => NotUtf8(file)
    case Err(TextLimit) => Oversized(file, maximum)
  }

  lemma ReadsUnique(file: seq<Byte>, value: string, value': string)
    requires Reads(file, value) && Reads(file, value')
    ensures value == value'
  {
    var text :| IsUtf8(file, text) && value == Strip(text);
    var text' :| IsUtf8(file, text') && value' == Strip(text');
    DecodeExact(file, text);
    DecodeExact(file, text');
  }

  /** Any two outcomes that `Explains` allows agree on success and on the text returned, so the
      outcome does not depend on how the reads were split. */
  lemma SplitIndependent(file: seq<Byte>, maximum: nat, r: Result<ReadError>, r': Result<ReadError>)
    requires Explains(file, maximum, r) && Explains(file, maximum, r')
    ensures r.Ok? == r'.Ok? && (r.Ok? ==> r == r')
    ensures r.Ok? <==> |file| <= MAX_OCR_RAW_TEXT_BYTES && exists value :: Reads(file, value) && Size(value) <= maximum
  {
    if r.Ok? && r'.Ok? {
      ReadsUnique(file, r.value, r'.value);
    }
    forall value | r.Ok? && Reads(file, value) ensures value == r.value {
      ReadsUnique(file, value, r.value);
    }
    forall value | r'.Ok? && Reads(file, value) ensures value == r'.value {
      ReadsUnique(file, value, r'.value);
    }
  }

  /** The decoder after `position` octets of `file`, fed in any portions. */
  ghost predicate DecodedSoFar(file: seq<Byte>, position: nat, seen: string, buffer: seq<Byte>) {
    position <= |file| && Decode(file[..position]) == Decoded(seen, buffer)
  }

  lemma NothingDecoded(file: seq<Byte>)
    ensures DecodedSoFar(file, 0, "", [])
  {
    assert file[..0] == [];
  }

  lemma FeedDecoder(file: seq<Byte>, position: nat, seen: string, buffer: seq<Byte>, data: seq<Byte>)
    requires DecodedSoFar(file, position, seen, buffer)
    requires position + |data| <= |file| && data == file[position..position + |data|]
    ensures match Decode(buffer + data)
            case Malformed => NotUtf8(file)
            case Decoded(chunk, rest) => DecodedSoFar(file, position + |data|, seen + chunk, rest)
  {
    var here, there := file[..position], file[..position + |data|];
    assert there == here + data;
    DecodeInTwoCalls(here, data);
    if Decode(buffer + data).Malformed? {
      MalformedPrefix(file, position + |data|);
    }
  }

  lemma NotEncoded(file: seq<Byte>)
    requires Decode(file).Malformed? || |Decode(file).rest| > 0
    ensures NotUtf8(file)
  {
    forall text ensures !IsUtf8(file, text) {
      DecodeExact(file, text);
    }
  }

  lemma MalformedPrefix(file: seq<Byte>, position: nat)
    requires position <= |file| && Decode(file[..position]).Malformed?
    ensures NotUtf8(file)
  {
    assert file == file[..position] + file[position..];
    DecodeInTwoCalls(file[..position], file[position..]);
    NotEncoded(file);
  }

  lemma SeenOversized(file: seq<Byte>, position: nat, seen: string, buffer: seq<Byte>, maximum: nat)
    requires DecodedSoFar(file, position, seen, buffer) && Size(Strip(seen)) > maximum
    ensures Oversized(file, maximum)
  {
    forall value | Reads(file, value) ensures Size(value) > maximum {
      var text :| IsUtf8(file, text) && value == Strip(text);
      PrefixWeighsLess(file, position, seen, buffer, text);
    }
  }

  lemma PrefixWeighsLess(file: seq<Byte>, position: nat, seen: string, buffer: seq<Byte>, text: string)
    requires DecodedSoFar(file, position, seen, buffer) && IsUtf8(file, text)
    ensures Size(Strip(seen)) <= Size(Strip(text))
  {
    DecodeExact(file, text);
    assert file == file[..position] + file[position..];
    DecodeInTwoCalls(file[..position], file[position..]);
    StripSizeMonotone(seen, Decode(buffer + file[position..]).text);
  }

  /** At the end of the file the decoder gives nothing more, and succeeds iff it keeps nothing back. */
  lemma DecoderAtEnd(file: seq<Byte>, seen: string, buffer: seq<Byte>, data: seq<Byte>)
    requires DecodedSoFar(file, |file|, seen, buffer) && |data| == 0
    ensures Decode(buffer + data).Decoded? && |Decode(buffer + data).text| == 0 && Decode(buffer + data).rest == buffer
    ensures |buffer| == 0 ==> IsUtf8(file, seen)
    ensures |buffer| > 0 ==> NotUtf8(file)
  {
    assert file[..|file|] == file && file + data == file;
    DecodeInTwoCalls(file, data);
    if |buffer| == 0 {
      DecodeExact(file, seen);
    }
    if |buffer| > 0 {
      NotEncoded(file);
    }
  }

  /** `decoder.decode(data, final=not data)`: the octets kept from earlier calls come first. */
  method DecodeMore(buffer: seq<Byte>, data: seq<Byte>, ghost file: seq<Byte>, ghost position: nat, ghost seen: string)
      returns (ok: bool, chunk: string, buffer': seq<Byte>)
    requires DecodedSoFar(file, position, seen, buffer)
    requires position + |data| <= |file| && data == file[position..position + |data|]
    requires |data| == 0 ==> position == |file|
    ensures !ok ==> NotUtf8(file)
    ensures ok ==> DecodedSoFar(file, position + |data|, seen + chunk, buffer')
    ensures ok && |data| == 0 ==> IsUtf8(file, seen + chunk)
  {
    FeedDecoder(file, position, seen, buffer, data);
    var decoded := Decode(buffer + data);
    if decoded.Malformed? {
      return false, "", buffer;
    }
    if |data| == 0 {
      DecoderAtEnd(file, seen, buffer, data);
      assert seen + decoded.text == seen;
      if |decoded.rest| > 0 {
        return false, "", buffer;
      }
    }
    return true, decoded.text, decoded.rest;
  }

  /** `_read_ocr_text`, for every way in which the operating system may split the reads. */
  method ReadOcrText(file: seq<Byte>, maximum: nat) returns (r: Result<ReadError>, ghost peak: nat)
    ensures Explains(file, maximum, r)
    ensures peak <= maximum
  {
    ghost var seen := "";
    var buffer: seq<Byte>, rawBytes: nat := [], 0;
    NothingDecoded(file);
    var parts, pending := "", "";
    var used: nat, pendingBytes: nat := 0, 0;
    peak := 0;
    NothingHeld(maximum);
    while true
      invariant rawBytes <= MAX_OCR_RAW_TEXT_BYTES
      invariant DecodedSoFar(file, rawBytes, seen, buffer)
      invariant Holds(seen, parts, used, pending, pendingBytes, maximum)
      invariant Size(parts) + Size(pending) <= peak <= maximum
      decreases |file| - rawBytes
    {
      var allowance := MAX_OCR_RAW_TEXT_BYTES - rawBytes + 1;
      var data := Read(file, rawBytes, if OCR_READ_CHUNK_BYTES <= allowance then OCR_READ_CHUNK_BYTES else allowance);
      if rawBytes + |data| > MAX_OCR_RAW_TEXT_BYTES {
        return Err(RawLimit), peak;
      }
      var ok, chunk;
      ok, chunk, buffer := DecodeMore(buffer, data, file, rawBytes, seen);
      if !ok {
        return Err(Undecodable), peak;
      }
      rawBytes := rawBytes + |data|;
      var exceeds;
      exceeds, parts, used, pending, pendingBytes := Absorb(chunk, parts, used, pending, pendingBytes, maximum, seen);
      seen := seen + chunk;
      if exceeds {
        SeenOversized(file, rawBytes, seen, buffer, maximum);
        return Err(TextLimit), peak;
      }
      peak := if peak < Size(parts) + Size(pending) then Size(parts) + Size(pending) else peak;
      if |data| == 0 {
        break;
      }
    }
    assert Reads(file, parts);
    r := Ok(parts);
  }

  // ----- The pages -----

  /** What the native tools leave behind for one page. */
  datatype Page = Page(rasterBytes: int, output: seq<Byte>)

  predicate RasterFits(page: Page) {
    0 < page.rasterBytes <= MAX_OCR_IMAGE_BYTES
  }

  /** Each page has a raster of legal size and an output whose stripped text is the given one. */
  ghost predicate PagesHold(pages: seq<Page>, texts: seq<string>) {
    && |texts| == |pages|
    && forall i :: 0 <= i < |pages| ==> PageHolds(pages[i], texts[i])
  }

  ghost predicate PageHolds(page: Page, text: string) {
    RasterFits(page) && |page.output| <= MAX_OCR_RAW_TEXT_BYTES && Reads(page.output, text)
  }

  /** A reading of the first pages is a prefix of every reading of all of them. */
  lemma PagesUnique(pages: seq<Page>, k: nat, texts: seq<string>, texts': seq<string>)
    requires k <= |pages| && PagesHold(pages[..k], texts) && PagesHold(pages, texts')
    ensures texts == texts'[..k]
  {
    forall i | 0 <= i < k ensures texts[i] == texts'[i] {
      assert PageHolds(pages[..k][i], texts[i]) && PageHolds(pages[i], texts'[i]);
      ReadsUnique(pages[i].output, texts[i], texts'[i]);
    }
  }

  /** No reading of all pages has a document within `maximum`. */
  ghost predicate Unreadable(pages: seq<Page>, maximum: int) {
    forall texts :: PagesHold(pages, texts) ==> Size(Document(texts)) > maximum
  }

  /** The pages before `k` read as `done`, and no text that page `k` can hold fits after them. */
  ghost predicate Blocked(pages: seq<Page>, k: nat, done: seq<string>, maximum: int)
    requires k < |pages|
  {
    && PagesHold(pages[..k], done)
    && forall text :: PageHolds(pages[k], text) ==> Size(Document(done)) + Added(|NonEmpty(done)| == 0, text) > maximum
  }

  /** Any reading of all pages extends the reading of the first `k`, and weighs at least as much. */
  lemma ReadingExtends(pages: seq<Page>, k: nat, done: seq<string>, texts: seq<string>)
    requires k < |pages| && PagesHold(pages[..k], done) && PagesHold(pages, texts)
    ensures PageHolds(pages[k], texts[k])
    ensures Size(Document(done)) + Added(|NonEmpty(done)| == 0, texts[k]) <= Size(Document(texts))
  {
    PagesUnique(pages, k, done, texts);
    assert texts[..k + 1] == done + [texts[k]];
    DocumentGrows(done, texts[k]);
    DocumentMonotone(texts, k + 1);
  }

  lemma BlockedUnreadable(pages: seq<Page>, k: nat, done: seq<string>, maximum: int)
    requires k < |pages| && Blocked(pages, k, done, maximum)
    ensures Unreadable(pages, maximum)
  {
    forall texts | PagesHold(pages, texts) ensures Size(Document(texts)) > maximum {
      ReadingExtends(pages, k, done, texts);
    }
  }

  /** The text budget of a page is what its predecessors left, so whatever stops its reader rules
      out every text that would fit. */
  lemma ReaderStops(page: Page, left: int, read: Result<ReadError>, text: string, first: bool)
    requires left >= 0 && Explains(page.output, left, read) && read.Err? && PageHolds(page, text)
    ensures Added(first, text) > left
  {
    assert Size(text) > left;
  }

  /** Why the page loop stops at page `k`, the pages before it reading as `done`: its raster has no legal size;
      or its raster is fine, and its output cannot be read within what is left, or leaves no room for the line
      break before it. */
  ghost predicate StopsAt(pages: seq<Page>, k: nat, done: seq<string>, maximum: int, error: OcrError)
    requires k < |pages|
  {
    && PagesHold(pages[..k], done) && Size(Document(done)) <= maximum
    && match error
       case RasterLimit => !RasterFits(pages[k])
       case Reading(cause) =>
         && RasterFits(pages[k])
         && (|| Explains(pages[k].output, maximum - Size(Document(done)), Err(cause))
             || (cause == TextLimit && TooLong(pages[k], done, maximum)))
       case _ => false
  }

  /** The page reads as a text that does not fit after the others. */
  ghost predicate TooLong(page: Page, done: seq<string>, maximum: int) {
    exists text :: PageHolds(page, text) && Size(Document(done)) + Added(|NonEmpty(done)| == 0, text) > maximum
  }

  ghost predicate Stops(pages: seq<Page>, maximum: int, error: OcrError) {
    exists k, done :: 0 <= k < |pages| && StopsAt(pages, k, done, maximum, error)
  }

  /** The whole contract: the checks in their order, then the first page that stops the loop, or the document. */
  ghost predicate DocumentExplains(encrypted: bool, pages: seq<Page>, maximum: int, r: Result<OcrError>) {
    if encrypted then r == Err(Encrypted)
    else if !(1 <= |pages| <= MAX_OCR_PAGES) then r == Err(PageLimit)
    else if maximum <= 0 then r == Err(InvalidLimit)
    else
      match r
      case Ok(value) => exists texts :: PagesHold(pages, texts) && value == Document(texts) && Size(value) <= maximum
      case Err(error) => Stops(pages, maximum, error)
  }

  /** A page that stops the loop rules out every reading that fits. */
  lemma StopIsFinal(pages: seq<Page>, k: nat, done: seq<string>, maximum: int, error: OcrError)
    requires k < |pages| && StopsAt(pages, k, done, maximum, error)
    ensures Unreadable(pages, maximum)
  {
    forall text | PageHolds(pages[k], text)
      ensures Size(Document(done)) + Added(|NonEmpty(done)| == 0, text) > maximum {
      if Explains(pages[k].output, maximum - Size(Document(done)), Err(error.cause)) {
        ReaderStops(pages[k], maximum - Size(Document(done)), Err(error.cause), text, |NonEmpty(done)| == 0);
      } else {
        var other :| PageHolds(pages[k], other) && Size(Document(done)) + Added(|NonEmpty(done)| == 0, other) > maximum;
        ReadsUnique(pages[k].output, text, other);
      }
    }
    BlockedUnreadable(pages, k, done, maximum);
  }

  /** The outcome is decided by the document alone: extraction succeeds exactly when the pages read
      as a document that fits, and then returns that document. */
  lemma ExtractionExact(encrypted: bool, pages: seq<Page>, maximum: int, r: Result<OcrError>, texts: seq<string>)
    requires DocumentExplains(encrypted, pages, maximum, r)
    requires !encrypted && 1 <= |pages| <= MAX_OCR_PAGES && maximum > 0 && PagesHold(pages, texts)
    ensures r.Ok? <==> Size(Document(texts)) <= maximum
    ensures r.Ok? ==> r.value == Document(texts)
  {
    if r.Err? {
      var k, done :| 0 <= k < |pages| && StopsAt(pages, k, done, maximum, r.error);
      StopIsFinal(pages, k, done, maximum, r.error);
    } else {
      var texts' :| PagesHold(pages, texts') && r.value == Document(texts') && Size(r.value) <= maximum;
      assert pages[..|pages|] == pages;
      PagesUnique(pages, |pages|, texts, texts');
      assert texts'[..|pages|] == texts';
    }
  }

  /** The page loop of `extract_pdf_ocr`. */
  method ReadPages(pages: seq<Page>, maximum: int) returns (r: Result<OcrError>)
    requires maximum > 0
    ensures r.Ok? ==> exists texts :: PagesHold(pages, texts) && r.value == Document(texts) && Size(r.value) <= maximum
    ensures r.Err? ==> Stops(pages, maximum, r.error)
  {
    var parts: seq<string>, used: nat := [], 0;
    ghost var texts: seq<string> := [];
    for k := 0 to |pages|
      invariant PagesHold(pages[..k], texts)
      invariant parts == NonEmpty(texts)
      invariant used == Size(Document(texts)) <= maximum
    {
      var page := pages[k];
      if !RasterFits(page) {
        assert StopsAt(pages, k, texts, maximum, RasterLimit);
        return Err(RasterLimit);
      }
      var read, _ := ReadOcrText(page.output, maximum - used);
      if read.Err? {
        assert StopsAt(pages, k, texts, maximum, Reading(read.error));
        return Err(Reading(read.error));
      }
      var text := read.value;
      if |text| > 0 {
        used := used + Size(text) + if |parts| > 0 then 1 else 0;
        if used > maximum {
          assert PageHolds(page, text) && TooLong(page, texts, maximum);
          assert StopsAt(pages, k, texts, maximum, Reading(TextLimit));
          return Err(Reading(TextLimit));
        }
        parts := parts + [text];
      }
      DocumentGrows(texts, text);
      NonEmptyGrows(texts, text);
      PagesGrow(pages, k, texts, text);
      texts := texts + [text];
    }
    assert pages[..|pages|] == pages;
    r := Ok(Join("\n", parts));
  }

  lemma PagesGrow(pages: seq<Page>, k: nat, texts: seq<string>, text: string)
    requires k < |pages| && PagesHold(pages[..k], texts) && PageHolds(pages[k], text)
    ensures PagesHold(pages[..k + 1], texts + [text])
  {
    forall i | 0 <= i <= k ensures PageHolds(pages[i], (texts + [text])[i]) {
      if i < k {
        assert PageHolds(pages[..k][i], texts[i]);
      }
    }
  }

  /** `extract_pdf_ocr` over what the native tools produced for each page. */
  method ExtractPdfOcr(encrypted: bool, pages: seq<Page>, maximum: int) returns (r: Result<OcrError>)
    ensures DocumentExplains(encrypted, pages, maximum, r)
  {
    if encrypted {
      return Err(Encrypted);
    }
    if !(1 <= |pages| <= MAX_OCR_PAGES) {
      return Err(PageLimit);
    }
    if maximum <= 0 {
      return Err(InvalidLimit);
    }
    r := ReadPages(pages, maximum);
  }
}
