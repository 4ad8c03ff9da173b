/**
 * The two readers of an ICY stream in the metadata helper: the local relay, which copies the audio
 * to the media player behind an HTTP/1.0 header and announces every stream title it meets, and the
 * title probe, which reads a few rounds of the stream and announces the first title of each
 * metadata block.
 *
 * The stream is the byte sequence `input`. The network decides how many bytes each `read` call
 * returns and what `available()` reports; both are the oracles `readSize` and `available`, indexed
 * by the number of read calls made so far.
 */
module ShoutcastProxy {
  import opened JavaInt
  import opened IcyFraming
  import opened StreamTitle
  import opened Options

  /** The read buffer: one second of a 128 kbit/s stream. */
  const BufferSize := 16384

  /** The floor put under the `icy-br` header's bit rate. */
  const MinBitRate := 32

  /** The probe gives up once its round counter exceeds this. */
  const ProbeRounds := 20

  // ---------------------------------------------------------------------------------------------
  // The response header

  /** UTF-8 encoding of one character. */
  function Utf8Char(c: char): (bytes: seq<byte>)
    ensures 1 <= |bytes| <= 4
    ensures (c as int < 0x80) == (|bytes| == 1)
    ensures c as int < 0x80 ==> bytes[0] as int == c as int
  {
    var v := c as int;
    if v < 0x80 then [v as byte]
    else if v < 0x800 then [(0xC0 + v / 64) as byte, (0x80 + v % 64) as byte]
    else if v < 0x1_0000 then [(0xE0 + v / 4096) as byte, (0x80 + (v / 64) % 64) as byte, (0x80 + v % 64) as byte]
    else [(0xF0 + v / 262144) as byte, (0x80 + (v / 4096) % 64) as byte, (0x80 + (v / 64) % 64) as byte, (0x80 + v % 64) as byte]
  }

  /** `String.getBytes(UTF_8)`. */
  function Utf8(s: string): (bytes: seq<byte>)
    ensures |bytes| >= |s|
  {
    if s == [] then [] else Utf8Char(s[0]) + Utf8(s[1..])
  }

  /** Encoding is compositional. */
  lemma {:induction false} Utf8Append(a: string, b: string)
    ensures Utf8(a + b) == Utf8(a) + Utf8(b)
    decreases |a|
  {
    if a == [] {
      assert a + b == b;
    } else {
      assert (a + b)[1..] == a[1..] + b;
      Utf8Append(a[1..], b);
    }
  }

  /** ASCII text encodes to its own character codes, one byte each. */
  lemma {:induction false} Utf8Ascii(s: string)
    requires forall i :: 0 <= i < |s| ==> s[i] as int < 0x80
    ensures |Utf8(s)| == |s|
    ensures forall i :: 0 <= i < |s| ==> Utf8(s)[i] as int == s[i] as int
    decreases |s|
  {
    if s != [] {
      Utf8Ascii(s[1..]);
      assert Utf8(s) == Utf8Char(s[0]) + Utf8(s[1..]);
    }
  }

  /** Java's string concatenation turns a missing content type into the text "null". */
  function ContentTypeText(contentType: Option<string>): (text: string)
    ensures contentType.Some? ==> text == contentType.value
    ensures contentType.None? ==> text == "null"
  {
    match contentType
    case Some(t) => t
    case None => "null"
  }

  /**
   * The header the relay writes to the player: the status line of an HTTP/1.0 200 response, a
   * no-cache pragma, the upstream content type, and the blank line that ends the header.
   */
  function HeaderText(contentType: Option<string>): (text: string)
    ensures |text| == 53 + |ContentTypeText(contentType)|
    ensures text[..17] == "HTTP/1.0 200 OK\r\n"
    ensures text[17..35] == "Pragma: no-cache\r\n"
    ensures text[35..49] == "Content-Type: "
    ensures text[49..|text| - 4] == ContentTypeText(contentType)
    ensures text[|text| - 4..] == "\r\n\r\n"
  {
    "HTTP/1.0 200 OK\r\n" + "Pragma: no-cache\r\n" + "Content-Type: " + ContentTypeText(contentType) + "\r\n\r\n"
  }

  // ---------------------------------------------------------------------------------------------
  // Read sizes

  /**
   * The length requested when nothing is available: half a second of audio at `bitRate` kbit/s,
   * capped by the buffer. With the bit rate floored at 32 it is at least 2048.
   */
  function FallbackRequest(bitRate: int): (count: int)
    requires bitRate >= MinBitRate
    ensures 2048 <= count <= BufferSize
    ensures count == BufferSize || count == bitRate * 64
    ensures count <= bitRate * 64
  {
    Min(bitRate * 64, BufferSize)
  }

  /** The same request as the Java code evaluates it: `bitRate * 64` wraps around in 32 bits. */
  function FallbackRequestAsWritten(bitRate: int): (count: int)
    requires IsInt(bitRate) && bitRate >= MinBitRate
    ensures count <= BufferSize
    ensures bitRate * 64 <= IntMax ==> count == FallbackRequest(bitRate)
  {
    Min(Wrap(bitRate * 64), BufferSize)
  }

  /**
   * A server announcing `icy-br: 33554432` makes the as-written request the most negative `int`,
   * a length `read` refuses with an exception, where half a second capped by the buffer is 16384.
   */
  lemma FallbackOverflows()
    ensures FallbackRequestAsWritten(0x200_0000) == IntMin < 0
    ensures FallbackRequest(0x200_0000) == BufferSize
  {
  }

  /**
   * The length the readers ask `read` for: what is available, or the fallback when nothing is,
   * capped by the buffer and, with metadata on, by the audio bytes left before the next length
   * byte. It is always a positive length, so no read crosses a metadata boundary, and it is the
   * largest length within all of these caps.
   */
  function RequestSize(available: nat, bitRate: int, metaint: int, total: int): (count: int)
    requires bitRate >= MinBitRate
    requires metaint > 0 ==> 0 <= total < metaint
    ensures 1 <= count <= BufferSize
    ensures metaint > 0 ==> count <= metaint - total
    ensures available > 0 ==> count <= available
    ensures available == 0 ==> count <= FallbackRequest(bitRate)
    ensures count == BufferSize || count == available || (available == 0 && count == FallbackRequest(bitRate))
            || (metaint > 0 && count == metaint - total)
  {
    var count := Min(available, BufferSize);
    var count := if count <= 0 then FallbackRequest(bitRate) else count;
    if metaint > 0 then Min(count, metaint - total) else count
  }

  /**
   * `InputStream.read(buf, off, len)` with `len > 0` on what is left of the stream, `input[pos..]`:
   * -1 at the end of the stream and the buffer untouched; otherwise between 1 and `len` bytes, as
   * many as the network delivers (`want`, clamped), copied in order to `buf[off..]`.
   */
  method Read(input: seq<byte>, pos: nat, buf: array<byte>, off: nat, len: int, want: nat) returns (n: int)
    requires pos <= |input| && 0 < len && off + len <= buf.Length
    modifies buf
    ensures pos == |input| ==> n == -1 && buf[..] == old(buf[..])
    ensures pos < |input| ==> n == Max(1, Min(want, Min(len, |input| - pos)))
    ensures pos < |input| ==> 1 <= n <= len && pos + n <= |input|
    ensures pos < |input| ==> buf[off..off + n] == input[pos..pos + n]
    ensures pos < |input| && off == 0 ==> buf[..n] == input[pos..pos + n]
    ensures pos < |input| ==> forall j :: 0 <= j < buf.Length && !(off <= j < off + n) ==> buf[j] == old(buf[j])
  {
    if pos == |input| {
      return -1;
    }
    n := Max(1, Min(want, Min(len, |input| - pos)));
    var i := 0;
    while i < n
      invariant 0 <= i <= n
      invariant buf[off..off + i] == input[pos..pos + i]
      invariant forall j :: 0 <= j < buf.Length && !(off <= j < off + i) ==> buf[j] == old(buf[j])
    {
      buf[off + i] := input[pos + i];
      i := i + 1;
    }
  }

  /**
   * The inner loop that reads a metadata block of `size` bytes into `buf[..size]`: the whole block
   * when the stream holds it, otherwise everything up to the end of the stream.
   */
  method ReadPayload(input: seq<byte>, pos: nat, buf: array<byte>, size: nat, readSize: nat -> nat, calls: nat)
    returns (newPos: nat, newCalls: nat)
    requires pos <= |input| && 0 < size <= MaxMetadataLength && buf.Length == BufferSize
    modifies buf
    ensures newCalls >= calls
    ensures pos + size <= |input| ==> newPos == pos + size && buf[..size] == input[pos..pos + size]
    ensures pos + size > |input| ==> newPos == |input|
  {
    var total := 0;
    var count := size;
    newPos, newCalls := pos, calls;
    while total < size
      invariant 0 <= total <= size && newPos == pos + total <= |input|
      invariant count == size - total
      invariant buf[..total] == input[pos..newPos]
      invariant newCalls >= calls
      decreases size - total
    {
      ghost var read := buf[..total];
      count := Read(input, newPos, buf, total, count, readSize(newCalls));
      newCalls := newCalls + 1;
      if count < 0 {
        break;
      }
      assert buf[..total] == read by {
        forall j | 0 <= j < total
          ensures buf[j] == read[j]
        {
        }
      }
      assert buf[..total + count] == buf[..total] + buf[total..total + count];
      assert input[pos..newPos + count] == input[pos..newPos] + input[newPos..newPos + count];
      total := total + count;
      newPos := newPos + count;
      count := size - total;
    }
  }

  // ---------------------------------------------------------------------------------------------
  // Titles

  /** The titles the relay announces for complete metadata blocks, block after block. */
  function AllTitles(blocks: seq<seq<byte>>): (titles: seq<string>)
    ensures "" !in titles
  {
    if blocks == [] then [] else AllTitles(blocks[..|blocks| - 1]) + BlockTitles(blocks[|blocks| - 1])
  }

  /** The title the probe announces for one block, if any: the first of the block's titles. */
  function ProbeTitle(block: seq<byte>): (sent: seq<string>)
    ensures |sent| <= 1
  {
    match FirstTitle(JavaSplit(BlockText(block)))
    case Some(t) => [t]
    case None => []
  }

  /** The probe announces exactly the first of the titles the relay announces for the same block. */
  lemma ProbeTitleIsFirst(block: seq<byte>)
    ensures ProbeTitle(block) == (if BlockTitles(block) == [] then [] else [BlockTitles(block)[0]])
  {
  }

  /** The titles the probe announces: from each complete block, its first title. */
  function FirstTitles(blocks: seq<seq<byte>>): (titles: seq<string>)
    ensures |titles| <= |blocks|
    ensures "" !in titles
  {
    if blocks == [] then [] else FirstTitles(blocks[..|blocks| - 1]) + ProbeTitle(blocks[|blocks| - 1])
  }

  lemma AllTitlesSnoc(blocks: seq<seq<byte>>, block: seq<byte>)
    ensures AllTitles(blocks + [block]) == AllTitles(blocks) + BlockTitles(block)
    ensures FirstTitles(blocks + [block]) == FirstTitles(blocks) + ProbeTitle(block)
  {
    assert (blocks + [block])[..|blocks|] == blocks;
  }

  /** A zero length byte announces an empty block, and an empty block carries no title. */
  lemma EmptyBlockTitles(block: seq<byte>)
    requires |block| == 0
    ensures BlockTitles(block) == []
  {
    var text := BlockText(block);
    assert ';' !in text;
    assert JavaSplit(text) == [text];
    assert SegmentTitles([text]) == SegmentTitles([text][..0]) + Broadcasts(text);
  }

  /** The metadata blocks that were read to their end. */
  function CompleteBlocks(f: Frames): (blocks: seq<seq<byte>>)
    requires f.truncated ==> |f.blocks| > 0
    ensures blocks <= f.blocks && |blocks| >= |f.blocks| - 1
    ensures !f.truncated <==> blocks == f.blocks
  {
    if f.truncated then f.blocks[..|f.blocks| - 1] else f.blocks
  }

  /**
   * The relay's loop over the segments of one block: each segment that carries a non-empty title
   * has it announced (broadcast and stored), in segment order.
   */
  method AnnounceTitles(segments: seq<string>) returns (sent: seq<string>)
    ensures sent == SegmentTitles(segments)
  {
    sent := [];
    for i := 0 to |segments|
      invariant sent == SegmentTitles(segments[..i])
    {
      assert segments[..i + 1][..i] == segments[..i];
      sent := sent + Broadcasts(segments[i]);
    }
    assert segments[..|segments|] == segments;
  }

  /** The probe's loop over the segments of one block: the first non-empty title is announced, then the loop breaks. */
  method AnnounceFirstTitle(segments: seq<string>) returns (sent: Option<string>)
    ensures sent == FirstTitle(segments)
  {
    sent := None;
    var i := 0;
    while i < |segments|
      invariant 0 <= i <= |segments|
      invariant SegmentTitles(segments[..i]) == []
    {
      var b := Broadcasts(segments[i]);
      if b != [] {
        sent := Some(b[0]);
        FirstTitleAt(segments, i);
        break;
      }
      NoTitleYet(segments, i);
      i := i + 1;
    }
    if sent.None? {
      assert segments[..|segments|] == segments;
    }
  }

  lemma NoTitleYet(segments: seq<string>, i: nat)
    requires i < |segments| && SegmentTitles(segments[..i]) == [] && Broadcasts(segments[i]) == []
    ensures SegmentTitles(segments[..i + 1]) == []
  {
    TitlesThroughSegment(segments, i);
  }

  lemma FirstTitleAt(segments: seq<string>, i: nat)
    requires i < |segments| && SegmentTitles(segments[..i]) == [] && Broadcasts(segments[i]) != []
    ensures FirstTitle(segments) == Some(Broadcasts(segments[i])[0])
  {
    TitlesThroughSegment(segments, i);
    assert segments[..i + 1] + segments[i + 1..] == segments;
    FirstTitleOfAppend(segments[..i + 1], segments[i + 1..], Broadcasts(segments[i]));
  }

  lemma TitlesThroughSegment(segments: seq<string>, i: nat)
    requires i < |segments| && SegmentTitles(segments[..i]) == []
    ensures SegmentTitles(segments[..i + 1]) == Broadcasts(segments[i])
  {
    var pre := segments[..i + 1];
    assert pre[..i] == segments[..i] && pre[i] == segments[i];
  }

  lemma FirstTitleOfAppend(pre: seq<string>, post: seq<string>, b: seq<string>)
    requires SegmentTitles(pre) == b && b != []
    ensures FirstTitle(pre + post) == Some(b[0])
  {
    SegmentTitlesAppend(pre, post);
  }

  // ---------------------------------------------------------------------------------------------
  // Steps shared by the two reader loops

  /** A zero length byte at `pos`: an empty block. */
  lemma EmptyBlockStep(input: seq<byte>, pos: nat, metaint: nat, acc: Frames)
    requires 0 < metaint && pos < |input| && input[pos] == 0
    requires Demux(input, metaint) == Concat(acc, DemuxFrom(input[pos..], metaint, 0))
    ensures Demux(input, metaint)
            == Concat(AddBlock(acc, input[pos + 1..pos + 1], false), DemuxFrom(input[pos + 1..], metaint, metaint))
  {
    BlockStep(input, pos, metaint, acc);
  }

  /** An empty block adds no title, for the relay or for the probe. */
  lemma EmptyBlockKeepsTitles(blocks: seq<seq<byte>>, empty: seq<byte>)
    requires |empty| == 0
    ensures AllTitles(blocks + [empty]) == AllTitles(blocks)
    ensures FirstTitles(blocks + [empty]) == FirstTitles(blocks)
  {
    AllTitlesSnoc(blocks, empty);
    EmptyBlockTitles(empty);
  }

  /**
   * The payload read after the length byte at `at`: a whole block when the stream holds it,
   * otherwise a truncated one that ends the stream.
   */
  lemma PayloadStep(input: seq<byte>, metaint: nat, at: nat, newPos: nat, acc: Frames)
    requires 0 < metaint && at < |input| && input[at] != 0
    requires at + 1 + input[at] as nat * 16 <= |input| ==> newPos == at + 1 + input[at] as nat * 16
    requires at + 1 + input[at] as nat * 16 > |input| ==> newPos == |input|
    requires Demux(input, metaint) == Concat(acc, DemuxFrom(input[at..], metaint, 0))
    ensures at + 1 <= newPos <= |input|
    ensures Demux(input, metaint)
            == Concat(AddBlock(acc, input[at + 1..newPos], at + 1 + input[at] as nat * 16 > |input|),
                      DemuxFrom(input[newPos..], metaint, metaint))
  {
    if at + 1 + input[at] as nat * 16 <= |input| {
      BlockStep(input, at, metaint, acc);
    } else {
      TruncatedStep(input, at, metaint, acc);
      var acc' := AddBlock(acc, input[at + 1..], true);
      assert input[at + 1..newPos] == input[at + 1..];
      assert input[newPos..] == [];
      ConcatNoFrames(acc');
    }
  }

  /** The relay's titles after one more block: all of them while no block is truncated, a prefix after. */
  lemma RelayTitlesStep(prev: Frames, block: seq<byte>, truncated: bool, titles: seq<string>, sent: seq<string>)
    requires !prev.truncated && titles == AllTitles(prev.blocks)
    requires !truncated ==> sent == BlockTitles(block)
    ensures var acc := AddBlock(prev, block, truncated);
            (!acc.truncated ==> titles + sent == AllTitles(acc.blocks))
            && (acc.truncated ==> AllTitles(acc.blocks[..|acc.blocks| - 1]) <= titles + sent)
  {
    AllTitlesSnoc(prev.blocks, block);
    assert (prev.blocks + [block])[..|prev.blocks|] == prev.blocks;
  }

  /** The probe's titles after one more block. */
  lemma ProbeTitlesStep(prev: Frames, block: seq<byte>, truncated: bool, broadcasts: seq<string>, sent: seq<string>)
    requires !prev.truncated && broadcasts == FirstTitles(prev.blocks)
    requires !truncated ==> sent == ProbeTitle(block)
    ensures var acc := AddBlock(prev, block, truncated);
            (!acc.truncated ==> broadcasts + sent == FirstTitles(acc.blocks))
            && (acc.truncated ==> FirstTitles(acc.blocks[..|acc.blocks| - 1]) <= broadcasts + sent)
  {
    AllTitlesSnoc(prev.blocks, block);
    assert (prev.blocks + [block])[..|prev.blocks|] == prev.blocks;
  }

  // ---------------------------------------------------------------------------------------------
  // The relay

  /**
   * The relay at the top of its loop, `pos` bytes into the stream and `total` audio bytes into the
   * current run. With metadata on, `acc` is what it has taken apart so far: the player has the
   * header and exactly `acc`'s audio, and the titles of `acc`'s complete blocks have been announced.
   * With metadata off, the player has the header and every byte read. No empty title is announced.
   */
  ghost predicate Relaying(input: seq<byte>, metaint: int, header: seq<byte>, pos: nat, total: int,
                           out: seq<byte>, titles: seq<string>, acc: Frames)
  {
    && pos <= |input|
    && ("" !in titles)
    && (metaint > 0 ==>
          && 0 <= total <= metaint
          && Demux(input, metaint) == Concat(acc, DemuxFrom(input[pos..], metaint, metaint - total))
          && out == header + acc.audio
          && (!acc.truncated ==> titles == AllTitles(acc.blocks))
          && (acc.truncated ==> pos == |input| && |acc.blocks| > 0 && AllTitles(acc.blocks[..|acc.blocks| - 1]) <= titles))
    && (metaint <= 0 ==> out == header + input[..pos] && titles == [])
  }

  /** What the relay has done once the stream has ended. */
  ghost predicate Relayed(input: seq<byte>, metaint: int, header: seq<byte>, out: seq<byte>, titles: seq<string>) {
    && ("" !in titles)
    && (metaint > 0 ==>
          && out == header + Demux(input, metaint).audio
          && AllTitles(CompleteBlocks(Demux(input, metaint))) <= titles
          && (!Demux(input, metaint).truncated ==> titles == AllTitles(Demux(input, metaint).blocks)))
    && (metaint <= 0 ==> out == header + input && titles == [])
  }

  /** Before the first read: nothing taken apart, only the header written. */
  lemma RelayStarts(input: seq<byte>, metaint: int, header: seq<byte>)
    ensures Relaying(input, metaint, header, 0, 0, header, [], NoFrames)
  {
    assert header + [] == header;
    assert input[0..] == input;
    if metaint > 0 {
      assert Concat(NoFrames, DemuxFrom(input, metaint, metaint)) == DemuxFrom(input, metaint, metaint);
    }
  }

  /** `n` bytes read at `pos` are written to the player; with metadata on they are audio. */
  lemma RelayAudio(input: seq<byte>, metaint: int, header: seq<byte>, pos: nat, total: int,
                   out: seq<byte>, titles: seq<string>, acc: Frames, n: nat, chunk: seq<byte>,
                   pos': nat, total': int, out': seq<byte>, acc': Frames)
    requires Relaying(input, metaint, header, pos, total, out, titles, acc)
    requires pos + n <= |input| && (metaint > 0 ==> total + n <= metaint) && chunk == input[pos..pos + n]
    requires pos' == pos + n && total' == total + n && out' == out + chunk
    requires acc' == if metaint > 0 then acc.(audio := acc.audio + chunk) else acc
    ensures Relaying(input, metaint, header, pos', total', out', titles, acc')
  {
    if metaint > 0 {
      AudioStep(input, pos, metaint, total, n, acc);
      AppendAssoc(header, acc.audio, chunk);
    } else {
      assert input[..pos + n] == input[..pos] + chunk;
      AppendAssoc(header, input[..pos], chunk);
    }
  }

  /** At the end of the stream the relay has done everything it promises. */
  lemma RelayEnds(input: seq<byte>, metaint: int, header: seq<byte>, pos: nat, total: int,
                  out: seq<byte>, titles: seq<string>, acc: Frames)
    requires Relaying(input, metaint, header, pos, total, out, titles, acc) && pos == |input|
    ensures Relayed(input, metaint, header, out, titles)
  {
    if metaint > 0 {
      EndOfStream(input, metaint, metaint - total, acc);
      CompleteTitles(acc, titles);
    } else {
      assert input[..pos] == input;
    }
  }

  lemma CompleteTitles(f: Frames, titles: seq<string>)
    requires f.truncated ==> |f.blocks| > 0
    requires !f.truncated ==> titles == AllTitles(f.blocks)
    requires f.truncated ==> AllTitles(f.blocks[..|f.blocks| - 1]) <= titles
    ensures AllTitles(CompleteBlocks(f)) <= titles
  {
  }

  lemma AppendAssoc<T>(a: seq<T>, b: seq<T>, c: seq<T>)
    ensures (a + b) + c == a + (b + c)
  {
  }

  /** A zero length byte at `pos`: an empty block, skipped, and a fresh run of audio. */
  lemma RelayEmptyBlock(input: seq<byte>, metaint: int, header: seq<byte>, pos: nat,
                        out: seq<byte>, titles: seq<string>, acc: Frames)
    requires metaint > 0 && pos < |input| && input[pos] == 0
    requires Relaying(input, metaint, header, pos, metaint, out, titles, acc)
    ensures Relaying(input, metaint, header, pos + 1, 0, out, titles, AddBlock(acc, input[pos + 1..pos + 1], false))
  {
    assert metaint - metaint == 0;
    EmptyBlockStep(input, pos, metaint, acc);
    EmptyBlockKeepsTitles(acc.blocks, input[pos + 1..pos + 1]);
    assert metaint - 0 == metaint;
  }

  /**
   * The block announced at `pos` has been read up to `newPos` into `block` and `sent` announced
   * from it: the relay is at a fresh run of audio, or at the end of a stream that cut the block.
   */
  lemma RelayBlock(input: seq<byte>, metaint: int, header: seq<byte>, pos: nat, newPos: nat, block: seq<byte>,
                   sent: seq<string>, out: seq<byte>, titles: seq<string>, acc: Frames)
    requires metaint > 0 && pos < |input| && input[pos] != 0
    requires Relaying(input, metaint, header, pos, metaint, out, titles, acc)
    requires pos + 1 + input[pos] as nat * 16 <= |input| ==>
               newPos == pos + 1 + input[pos] as nat * 16 && block == input[pos + 1..newPos]
    requires pos + 1 + input[pos] as nat * 16 > |input| ==> newPos == |input|
    requires sent == SegmentTitles(JavaSplit(BlockText(block)))
    ensures Relaying(input, metaint, header, newPos, 0, out, titles + sent,
                     AddBlock(acc, input[pos + 1..newPos], pos + 1 + input[pos] as nat * 16 > |input|))
  {
    assert metaint - metaint == 0;
    var truncated := pos + 1 + input[pos] as nat * 16 > |input|;
    PayloadStep(input, metaint, pos, newPos, acc);
    RelayTitlesStep(acc, input[pos + 1..newPos], truncated, titles, sent);
    assert metaint - 0 == metaint;
  }

  /**
   * The relay at the length byte `input[pos]`, a full run of audio behind it: an empty block is
   * skipped; otherwise the block is read into the buffer and every title in it is announced.
   * A fresh run of audio starts at `newPos`.
   */
  method RelayMetadata(input: seq<byte>, metaint: int, ghost header: seq<byte>, pos: nat, total: int,
                       buf: array<byte>, readSize: nat -> nat, calls: nat, ghost out: seq<byte>, titles: seq<string>,
                       ghost acc: Frames)
    returns (newPos: nat, newTotal: int, newCalls: nat, newTitles: seq<string>, ghost newAcc: Frames)
    requires metaint > 0 && pos < |input| && buf.Length == BufferSize && total == metaint
    requires Relaying(input, metaint, header, pos, total, out, titles, acc)
    modifies buf
    ensures pos < newPos && newCalls >= calls && newTotal == 0
    ensures Relaying(input, metaint, header, newPos, newTotal, out, newTitles, newAcc)
  {
    newTotal := 0;
    var lengthByte := input[pos];
    var metadataSize := lengthByte as int * 16;
    if metadataSize == 0 {
      RelayEmptyBlock(input, metaint, header, pos, out, titles, acc);
      return pos + 1, 0, calls, titles, AddBlock(acc, input[pos + 1..pos + 1], false);
    }
    newPos, newCalls := ReadPayload(input, pos + 1, buf, metadataSize, readSize, calls);
    var sent := AnnounceTitles(JavaSplit(BlockText(buf[..metadataSize])));
    RelayBlock(input, metaint, header, pos, newPos, buf[..metadataSize], sent, out, titles, acc);
    newAcc := AddBlock(acc, input[pos + 1..newPos], pos + 1 + metadataSize > |input|);
    newTitles := titles + sent;
  }

  /**
   * The relay. With metadata on (`metaint > 0`) the player receives the header and then exactly the
   * stream's audio bytes, in order, and no length byte or metadata byte; the titles announced are
   * those of every complete metadata block, in order, followed, when the stream ends inside a
   * block, by whatever the partly refilled buffer yields. Without metadata every byte is relayed
   * and no title is announced. No empty title is ever announced.
   */
  method ShoutcastProxyReaderLoop(input: seq<byte>, contentType: Option<string>, metaint: int, icyBr: int,
                                  available: nat -> nat, readSize: nat -> nat)
    returns (out: seq<byte>, titles: seq<string>)
    ensures metaint > 0 ==> out == Utf8(HeaderText(contentType)) + Demux(input, metaint).audio
    ensures metaint > 0 ==> AllTitles(CompleteBlocks(Demux(input, metaint))) <= titles
    ensures metaint > 0 && !Demux(input, metaint).truncated ==> titles == AllTitles(Demux(input, metaint).blocks)
    ensures metaint <= 0 ==> out == Utf8(HeaderText(contentType)) + input && titles == []
    ensures "" !in titles
  {
    out := Utf8(HeaderText(contentType));
    ghost var header := out;
    titles := [];
    var buf := new byte[BufferSize];
    var count := 0;
    var total := 0;
    var bitRate := Max(icyBr, MinBitRate);
    var pos := 0;
    var calls := 0;
    ghost var acc := NoFrames;
    RelayStarts(input, metaint, header);
    while true
      invariant Relaying(input, metaint, header, pos, total, out, titles, acc)
      invariant metaint > 0 ==> total < metaint
      decreases |input| - pos
    {
      count := RequestSize(available(calls), bitRate, metaint, total);
      count := Read(input, pos, buf, 0, count, readSize(calls));
      calls := calls + 1;
      if count < 0 {
        break;
      }
      ghost var pos0, total0, out0, acc0 := pos, total, out, acc;
      var chunk := buf[..count];
      out := out + chunk;
      acc := if metaint > 0 then acc.(audio := acc.audio + chunk) else acc;
      pos := pos + count;
      total := total + count;
      RelayAudio(input, metaint, header, pos0, total0, out0, titles, acc0, count, chunk, pos, total, out, acc);
      if metaint > 0 && total >= metaint {
        assert total == metaint;
        if pos == |input| {
          break;
        }
        pos, total, calls, titles, acc := RelayMetadata(input, metaint, header, pos, total, buf, readSize, calls, out, titles, acc);
      }
    }
    RelayEnds(input, metaint, header, pos, total, out, titles, acc);
  }

  // ---------------------------------------------------------------------------------------------
  // The title probe

  /**
   * The probe at the top of its loop, `pos` bytes into the stream and `total` audio bytes into the
   * current run. With metadata on, `acc` is what it has taken apart so far, `blocksRead` counts its
   * blocks, and the first title of each of its complete blocks has been announced. With metadata
   * off, nothing is announced. No empty title is announced.
   */
  ghost predicate Probing(input: seq<byte>, metaint: int, pos: nat, total: int, broadcasts: seq<string>,
                          blocksRead: nat, acc: Frames)
  {
    && pos <= |input|
    && ("" !in broadcasts)
    && (metaint > 0 ==>
          && 0 <= total <= metaint
          && Demux(input, metaint) == Concat(acc, DemuxFrom(input[pos..], metaint, metaint - total))
          && blocksRead == |acc.blocks|
          && (!acc.truncated ==> broadcasts == FirstTitles(acc.blocks))
          && (acc.truncated ==>
                pos == |input| && |acc.blocks| > 0 && FirstTitles(acc.blocks[..|acc.blocks| - 1]) <= broadcasts))
    && (metaint <= 0 ==> broadcasts == [] && blocksRead == 0)
  }

  /** What the probe has announced after reading `blocksRead` blocks, wherever it stopped. */
  ghost predicate Probed(input: seq<byte>, metaint: int, broadcasts: seq<string>, blocksRead: nat) {
    && ("" !in broadcasts)
    && (metaint <= 0 ==> broadcasts == [] && blocksRead == 0)
    && (metaint > 0 ==>
          && blocksRead <= |Demux(input, metaint).blocks|
          && (blocksRead <= |CompleteBlocks(Demux(input, metaint))| ==>
                broadcasts == FirstTitles(Demux(input, metaint).blocks[..blocksRead]))
          && (blocksRead > |CompleteBlocks(Demux(input, metaint))| ==>
                FirstTitles(CompleteBlocks(Demux(input, metaint))) <= broadcasts))
  }

  lemma ProbeStarts(input: seq<byte>, metaint: int)
    ensures Probing(input, metaint, 0, 0, [], 0, NoFrames)
  {
    assert input[0..] == input;
    if metaint > 0 {
      assert Concat(NoFrames, DemuxFrom(input, metaint, metaint)) == DemuxFrom(input, metaint, metaint);
    }
  }

  /** `n` audio bytes read at `pos`. */
  lemma ProbeAudio(input: seq<byte>, metaint: int, pos: nat, total: int, broadcasts: seq<string>,
                   blocksRead: nat, acc: Frames, n: nat, pos': nat, total': int, acc': Frames)
    requires Probing(input, metaint, pos, total, broadcasts, blocksRead, acc)
    requires pos + n <= |input| && (metaint > 0 ==> total + n <= metaint)
    requires pos' == pos + n && total' == total + n
    requires acc' == if metaint > 0 then acc.(audio := acc.audio + input[pos..pos + n]) else acc
    ensures Probing(input, metaint, pos', total', broadcasts, blocksRead, acc')
  {
    if metaint > 0 {
      AudioStep(input, pos, metaint, total, n, acc);
    }
  }

  /** Wherever the probe stops, its announcements are those of the stream's first blocks; at the end of the stream it has read every block. */
  lemma ProbeStops(input: seq<byte>, metaint: int, pos: nat, total: int, broadcasts: seq<string>,
                   blocksRead: nat, acc: Frames)
    requires Probing(input, metaint, pos, total, broadcasts, blocksRead, acc)
    ensures Probed(input, metaint, broadcasts, blocksRead)
    ensures metaint > 0 && pos == |input| ==> blocksRead == |Demux(input, metaint).blocks|
  {
    if metaint > 0 {
      ReaderProgress(input, metaint, pos, metaint - total, acc);
      if pos == |input| {
        EndOfStream(input, metaint, metaint - total, acc);
      }
      var f := Demux(input, metaint);
      assert f.blocks[..blocksRead] == acc.blocks;
      if acc.truncated {
        assert CompleteBlocks(f) == acc.blocks[..|acc.blocks| - 1];
      }
    }
  }

  /** A zero length byte at `pos`: an empty block, which carries no title. */
  lemma ProbeEmptyBlock(input: seq<byte>, metaint: int, pos: nat, broadcasts: seq<string>, blocksRead: nat, acc: Frames)
    requires metaint > 0 && pos < |input| && input[pos] == 0
    requires Probing(input, metaint, pos, metaint, broadcasts, blocksRead, acc)
    ensures Probing(input, metaint, pos + 1, 0, broadcasts, blocksRead + 1, AddBlock(acc, input[pos + 1..pos + 1], false))
  {
    assert metaint - metaint == 0;
    EmptyBlockStep(input, pos, metaint, acc);
    EmptyBlockKeepsTitles(acc.blocks, input[pos + 1..pos + 1]);
    assert metaint - 0 == metaint;
  }

  /** The block announced at `pos` has been read up to `newPos` into `block` and its first title, if any, announced. */
  lemma ProbeBlock(input: seq<byte>, metaint: int, pos: nat, newPos: nat, block: seq<byte>,
                   first: Option<string>, sent: seq<string>, broadcasts: seq<string>, blocksRead: nat, acc: Frames)
    requires metaint > 0 && pos < |input| && input[pos] != 0
    requires Probing(input, metaint, pos, metaint, broadcasts, blocksRead, acc)
    requires pos + 1 + input[pos] as nat * 16 <= |input| ==>
               newPos == pos + 1 + input[pos] as nat * 16 && block == input[pos + 1..newPos]
    requires pos + 1 + input[pos] as nat * 16 > |input| ==> newPos == |input|
    requires first == FirstTitle(JavaSplit(BlockText(block))) && sent == if first.Some? then [first.value] else []
    ensures Probing(input, metaint, newPos, 0, broadcasts + sent, blocksRead + 1,
                    AddBlock(acc, input[pos + 1..newPos], pos + 1 + input[pos] as nat * 16 > |input|))
  {
    assert metaint - metaint == 0;
    var truncated := pos + 1 + input[pos] as nat * 16 > |input|;
    PayloadStep(input, metaint, pos, newPos, acc);
    ProbeTitlesStep(acc, input[pos + 1..newPos], truncated, broadcasts, sent);
    assert metaint - 0 == metaint;
  }

  /** The probe at the length byte `input[pos]`: like the relay, but only the block's first title is announced. */
  method ProbeMetadata(input: seq<byte>, metaint: int, pos: nat, total: int, buf: array<byte>, readSize: nat -> nat,
                       calls: nat, broadcasts: seq<string>, blocksRead: nat, ghost acc: Frames)
    returns (newPos: nat, newTotal: int, newCalls: nat, newBroadcasts: seq<string>, newBlocksRead: nat,
             ghost newAcc: Frames)
    requires metaint > 0 && pos < |input| && buf.Length == BufferSize && total == metaint
    requires Probing(input, metaint, pos, total, broadcasts, blocksRead, acc)
    modifies buf
    ensures pos < newPos && newCalls >= calls && newTotal == 0 && newBlocksRead == blocksRead + 1
    ensures Probing(input, metaint, newPos, newTotal, newBroadcasts, newBlocksRead, newAcc)
  {
    newTotal := 0;
    newBlocksRead := blocksRead + 1;
    var lengthByte := input[pos];
    var metadataSize := lengthByte as int * 16;
    if metadataSize == 0 {
      ProbeEmptyBlock(input, metaint, pos, broadcasts, blocksRead, acc);
      return pos + 1, 0, calls, broadcasts, blocksRead + 1, AddBlock(acc, input[pos + 1..pos + 1], false);
    }
    newPos, newCalls := ReadPayload(input, pos + 1, buf, metadataSize, readSize, calls);
    var first := AnnounceFirstTitle(JavaSplit(BlockText(buf[..metadataSize])));
    var sent := if first.Some? then [first.value] else [];
    ProbeBlock(input, metaint, pos, newPos, buf[..metadataSize], first, sent, broadcasts, blocksRead, acc);
    newAcc := AddBlock(acc, input[pos + 1..newPos], pos + 1 + metadataSize > |input|);
    newBroadcasts := broadcasts + sent;
  }

  /**
   * The title probe. It reads like the relay but writes nothing, announces only the first title of
   * each metadata block, and stops at the end of the stream, once its round counter has passed 20
   * (at most 21 rounds), or when it is no longer the current probe thread (`current`, asked before
   * each round). `blocksRead` counts the metadata blocks it took in: they are the stream's first
   * blocks, and if it stopped before the stream's last block, the counter or the thread check
   * stopped it. The `break` after an announcement leaves only the loop over segments, so every
   * block read still gets its own announcement.
   */
  method PrepareMetadata(input: seq<byte>, metaint: int, icyBr: int,
                         available: nat -> nat, readSize: nat -> nat, current: nat -> bool)
    returns (broadcasts: seq<string>, rounds: nat, blocksRead: nat)
    ensures rounds <= ProbeRounds + 1
    ensures metaint <= 0 ==> broadcasts == [] && blocksRead == 0
    ensures metaint > 0 ==> blocksRead <= |Demux(input, metaint).blocks|
    ensures metaint > 0 && blocksRead < |Demux(input, metaint).blocks| ==> rounds == ProbeRounds + 1 || !current(rounds)
    ensures metaint > 0 && blocksRead <= |CompleteBlocks(Demux(input, metaint))| ==>
              broadcasts == FirstTitles(Demux(input, metaint).blocks[..blocksRead])
    ensures metaint > 0 && blocksRead > |CompleteBlocks(Demux(input, metaint))| ==>
              FirstTitles(CompleteBlocks(Demux(input, metaint))) <= broadcasts
    ensures "" !in broadcasts
  {
    broadcasts := [];
    blocksRead := 0;
    var buf := new byte[BufferSize];
    var count := 0;
    var total := 0;
    var bitRate := Max(icyBr, MinBitRate);
    var pos := 0;
    var calls := 0;
    var counter := 0;
    ghost var acc := NoFrames;
    ProbeStarts(input, metaint);
    while current(counter)
      invariant Probing(input, metaint, pos, total, broadcasts, blocksRead, acc)
      invariant metaint > 0 ==> total < metaint
      invariant counter <= ProbeRounds + 1
      decreases |input| - pos
    {
      if counter > ProbeRounds {
        break;
      }
      counter := counter + 1;
      count := RequestSize(available(calls), bitRate, metaint, total);
      count := Read(input, pos, buf, 0, count, readSize(calls));
      calls := calls + 1;
      if count < 0 {
        break;
      }
      ghost var pos0, total0, acc0 := pos, total, acc;
      acc := if metaint > 0 then acc.(audio := acc.audio + input[pos..pos + count]) else acc;
      pos := pos + count;
      total := total + count;
      ProbeAudio(input, metaint, pos0, total0, broadcasts, blocksRead, acc0, count, pos, total, acc);
      if metaint > 0 && total >= metaint {
        assert total == metaint;
        if pos == |input| {
          break;
        }
        pos, total, calls, broadcasts, blocksRead, acc :=
          ProbeMetadata(input, metaint, pos, total, buf, readSize, calls, broadcasts, blocksRead, acc);
      }
    }
    rounds := counter;
    ProbeStops(input, metaint, pos, total, broadcasts, blocksRead, acc);
  }
}
