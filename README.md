# Open Quran Radio: stream metadata, image sizing, sleep timer and player screen

This project models the logic of the Open Quran Radio Android app (a fork of Transistor) that is
more than framework plumbing, and proves properties of it:

- **The ICY stream readers** (`MetadataHelper`). A SHOUTcast/ICY stream sends `icy-metaint` audio
  bytes, then a length byte L, then L × 16 bytes of metadata, and repeats. The local relay
  (`shoutcastProxyReaderLoop`) writes an HTTP/1.0 header and then the audio to the media player,
  and announces every `StreamTitle='…'` it finds. The title probe (the loop in `prepareMetadata`)
  reads at most 21 rounds of the same stream and announces the first title of each block.
  `IcyFraming.Demux` says what taking a stream apart means. `IcyFraming.DemuxMux` proves it the
  inverse of the server's framing. Both reader loops are proved against it: the relay's output is
  the header followed by exactly the stream's audio bytes. For a stream that does not end inside a
  metadata block, the titles announced are exactly those of its metadata blocks, in order. When the
  stream ends inside a block, the complete blocks' titles come first, and the titles after them are
  only known to be non-empty (see "Left out").
- **Title extraction** (`StreamTitle`): Java's `split(";")` (trailing empty parts dropped), the
  `StreamTitle='` header test, and the rule that an empty title is never announced.
- **Image sizing** (`ImageHelper`): the power-of-two down-sampling factor for bitmap decoding, and
  the launcher icon size lookup by screen-size class and density.
- **The sleep timer** (`MainActivityFragment`). It is a 15-minute timer that can only be started
  while a station plays. A snackbar counts down in `MM:SS`. The playback and timer flags are kept
  in the preferences. The same fragment also switches between the station list and the empty
  "call to action" view, and imports the initial station data once.
- **The player screen** (`PlayerActivity`): the play buttons, playback and collection broadcasts,
  and the second play button shown when the toolbar collapses.

Java's `int` arithmetic is modelled where it matters (`JavaInt`): 32-bit wrap-around, `/`
truncating toward zero, and `Math.abs` of the smallest `int`. Bytes are `JavaInt.byte` (0..255), as
`InputStream.read` returns them.

The network is modelled as inputs: the stream is a byte sequence, and `available()` and the number
of bytes each `read` delivers are oracles indexed by the read-call count. Preferences, the timer
service, snackbars and toasts are fields: a record of stored values, a request log, and the
snackbar's text and visibility.

## Model

| member | source | states |
|---|---|---|
| JavaInt.Wrap | AndroidApp/app/src/main/java/org/y20k/transistor/helpers/MetadataHelper.java:178 | The result is an `int`, congruent to the input modulo 2^32, and equal to it when it already fits. |
| JavaInt.Div | AndroidApp/app/src/main/java/org/y20k/transistor/helpers/ImageHelper.java:240-241 | Java's `/` by a positive divisor truncates toward zero: Euclidean for a non-negative dividend; for a negative one the quotient q is not positive and q·b − b < a ≤ q·b. |
| JavaInt.DivBounds | AndroidApp/app/src/main/java/org/y20k/transistor/helpers/ImageHelper.java:245-246 | For a non-negative dividend, the truncated quotient q satisfies q·b ≤ a < q·b + b. |
| JavaInt.Abs | AndroidApp/app/src/main/java/org/y20k/transistor/PlayerActivity.java:95 | `Math.abs` is the absolute value, except that the smallest `int` maps to itself. |
| IcyFraming.Demux | AndroidApp/app/src/main/java/org/y20k/transistor/helpers/MetadataHelper.java:175-230 | The definition of taking apart a whole stream, which starts with a full audio run. Its contract says only that a truncated block is the last of at least one block. Byte conservation for it is the lemma IcyFraming.DemuxConservesBytes, applied with a full run left. |
| IcyFraming.DemuxFrom | AndroidApp/app/src/main/java/org/y20k/transistor/helpers/MetadataHelper.java:175-230 | Taking a stream apart: a block can be truncated only if there is a block. |
| IcyFraming.DemuxBlockSizes | AndroidApp/app/src/main/java/org/y20k/transistor/helpers/MetadataHelper.java:202-207 | Every metadata block holds at most 4080 bytes and a multiple of 16, except a last block cut short by the end of the stream. |
| IcyFraming.DemuxAudioPrefix | AndroidApp/app/src/main/java/org/y20k/transistor/helpers/MetadataHelper.java:180-194 | Up to the next length byte, any prefix of the stream is audio, and the rest is taken apart from there. |
| IcyFraming.DemuxMetadataBlock | AndroidApp/app/src/main/java/org/y20k/transistor/helpers/MetadataHelper.java:197-220 | At a length byte L whose block is complete, the L·16 bytes after it are one block, and a full audio run follows. |
| IcyFraming.DemuxTruncatedBlock | AndroidApp/app/src/main/java/org/y20k/transistor/helpers/MetadataHelper.java:209-219 | At a length byte whose block the stream does not finish, the rest of the stream is one truncated block. |
| IcyFraming.ConcatBlock | AndroidApp/app/src/main/java/org/y20k/transistor/helpers/MetadataHelper.java:197-229 | Appending a one-block part is adding that block. |
| IcyFraming.ConcatAssoc | AndroidApp/app/src/main/java/org/y20k/transistor/helpers/MetadataHelper.java:175-230 | Joining the parts of a stream is associative. |
| IcyFraming.AudioStep | AndroidApp/app/src/main/java/org/y20k/transistor/helpers/MetadataHelper.java:184-194 | A read of n audio bytes that does not pass the boundary moves those n bytes into the audio taken apart, and nothing else. |
| IcyFraming.BlockStep | AndroidApp/app/src/main/java/org/y20k/transistor/helpers/MetadataHelper.java:197-220 | Reading a length byte and its complete block adds that block and starts a fresh audio run after it. |
| IcyFraming.TruncatedStep | AndroidApp/app/src/main/java/org/y20k/transistor/helpers/MetadataHelper.java:209-220 | Reading a length byte whose block the stream cuts short ends the stream with a truncated block. |
| IcyFraming.ConcatNoFrames | AndroidApp/app/src/main/java/org/y20k/transistor/helpers/MetadataHelper.java:175-230 | An empty part changes nothing. |
| IcyFraming.EndOfStream | AndroidApp/app/src/main/java/org/y20k/transistor/helpers/MetadataHelper.java:188-190 | When a read reports the end of the stream, what was taken apart is the whole stream. |
| IcyFraming.ReaderProgress | AndroidApp/app/src/main/java/org/y20k/transistor/helpers/MetadataHelper.java:283-304 | Wherever a reader stops, its audio and blocks are prefixes of the stream's own; once a block is truncated, they are all of it. |
| IcyFraming.DemuxConservesBytes | AndroidApp/app/src/main/java/org/y20k/transistor/helpers/MetadataHelper.java:184-220 | Every byte of the stream is counted exactly once: as audio, as a length byte (one per block), or as metadata. |
| IcyFraming.MetadataBytesPrepend | AndroidApp/app/src/main/java/org/y20k/transistor/helpers/MetadataHelper.java:203 | The metadata byte count of a block list is additive. |
| IcyFraming.DemuxAudioRun | AndroidApp/app/src/main/java/org/y20k/transistor/helpers/MetadataHelper.java:180-195 | A stream starting with a full audio run: the run is audio, and a length byte follows. |
| IcyFraming.DemuxBlock | AndroidApp/app/src/main/java/org/y20k/transistor/helpers/MetadataHelper.java:198-219 | A length byte announcing exactly the following block yields that block. |
| IcyFraming.DemuxFrame | AndroidApp/app/src/main/java/org/y20k/transistor/helpers/MetadataHelper.java:175-230 | One server frame (audio run, length byte, metadata) comes apart into that audio and that block. |
| IcyFraming.FrameConcat | AndroidApp/app/src/main/java/org/y20k/transistor/helpers/MetadataHelper.java:175-230 | A frame's audio part followed by its block part is the frame. |
| IcyFraming.DemuxMux | AndroidApp/app/src/main/java/org/y20k/transistor/helpers/MetadataHelper.java:175-230 | Round trip: taking apart what a server framed gives back all its audio in order and all its metadata blocks, with none truncated. |
| StreamTitle.BlockText | AndroidApp/app/src/main/java/org/y20k/transistor/helpers/MetadataHelper.java:221 | The block read as text has one character per byte, with the byte's code. |
| StreamTitle.SplitAll | AndroidApp/app/src/main/java/org/y20k/transistor/helpers/MetadataHelper.java:221 | Splitting at every `;` gives at least one part, and no part contains `;`. |
| StreamTitle.JoinSplitAll | AndroidApp/app/src/main/java/org/y20k/transistor/helpers/MetadataHelper.java:221 | Joining the parts with `;` gives back the text. |
| StreamTitle.SplitAllPrefix | AndroidApp/app/src/main/java/org/y20k/transistor/helpers/MetadataHelper.java:221 | Text without `;` in front of more text only lengthens the first part. |
| StreamTitle.SplitAllJoin | AndroidApp/app/src/main/java/org/y20k/transistor/helpers/MetadataHelper.java:221 | Round trip: splitting the `;`-join of parts without `;` gives back the parts. |
| StreamTitle.DropTrailingEmpty | AndroidApp/app/src/main/java/org/y20k/transistor/helpers/MetadataHelper.java:221 | The kept parts are a prefix, every dropped part is empty, and the last kept part is not empty. |
| StreamTitle.JavaSplit | AndroidApp/app/src/main/java/org/y20k/transistor/helpers/MetadataHelper.java:221 | `split(";")`: no part contains `;`. |
| StreamTitle.SegmentTitle | AndroidApp/app/src/main/java/org/y20k/transistor/helpers/MetadataHelper.java:223-225 | A segment yields a title exactly when it starts with `StreamTitle='` and is longer than that header. The segment is then the header, the title and one final character. |
| StreamTitle.SegmentTitleRoundTrip | AndroidApp/app/src/main/java/org/y20k/transistor/helpers/MetadataHelper.java:223-225 | Round trip: the header, a title and the closing quote give back that title. |
| StreamTitle.Broadcasts | AndroidApp/app/src/main/java/org/y20k/transistor/helpers/MetadataHelper.java:380 | A segment announces at most one title, never an empty one. It announces one exactly when it yields a non-empty title. |
| StreamTitle.SegmentTitles | AndroidApp/app/src/main/java/org/y20k/transistor/helpers/MetadataHelper.java:222-228 | At most one title per segment, and no empty title. |
| StreamTitle.FirstTitle | AndroidApp/app/src/main/java/org/y20k/transistor/helpers/MetadataHelper.java:335-360 | The probe's title is never empty. |
| StreamTitle.SegmentTitlesAppend | AndroidApp/app/src/main/java/org/y20k/transistor/helpers/MetadataHelper.java:222-228 | The titles of two segment lists in a row are the titles of the first, then those of the second. |
| StreamTitle.DropTrailingEmptyTitles | AndroidApp/app/src/main/java/org/y20k/transistor/helpers/MetadataHelper.java:221-228 | Dropping trailing empty parts loses no title. |
| StreamTitle.BlockTitles | AndroidApp/app/src/main/java/org/y20k/transistor/helpers/MetadataHelper.java:221-228 | One block read as text, split at `;`, and each segment's title taken: no announced title is empty. |
| StreamTitle.JavaSplitTitles | AndroidApp/app/src/main/java/org/y20k/transistor/helpers/MetadataHelper.java:221-228 | Java's split yields the same titles as splitting at every `;`. |
| StreamTitle.TitlesOfJoin | AndroidApp/app/src/main/java/org/y20k/transistor/helpers/MetadataHelper.java:221-228 | Joining parts with `;` and splitting again yields the parts' own titles. |
| StreamTitle.ServerTitleExtracted | AndroidApp/app/src/main/java/org/y20k/transistor/helpers/MetadataHelper.java:221-228 | Metadata `StreamTitle='t';` followed by title-less fields announces exactly t, for any t without `;`. |
| StreamTitle.TitleSegmentHasNoSemicolon | AndroidApp/app/src/main/java/org/y20k/transistor/helpers/MetadataHelper.java:221 | A title segment built from a title without `;` contains no `;`. |
| StreamTitle.NoTitlesBeforeEmpty | AndroidApp/app/src/main/java/org/y20k/transistor/helpers/MetadataHelper.java:221-228 | Title-less fields and a trailing empty part announce nothing. |
| StreamTitle.TitleThenNoTitles | AndroidApp/app/src/main/java/org/y20k/transistor/helpers/MetadataHelper.java:222-228 | A title segment followed by title-less segments announces exactly that title. |
| StreamTitle.NoTitles | AndroidApp/app/src/main/java/org/y20k/transistor/helpers/MetadataHelper.java:222-228 | Segments that yield no title announce nothing. |
| StreamTitle.SemicolonInTitleCuts | AndroidApp/app/src/main/java/org/y20k/transistor/helpers/MetadataHelper.java:221-225 | A `;` inside a title cuts it: `StreamTitle='AC;DC';` announces `A`. |
| StreamTitle.CutTitleParts | AndroidApp/app/src/main/java/org/y20k/transistor/helpers/MetadataHelper.java:221 | The parts of `StreamTitle='AC;DC';` are `StreamTitle='AC`, `DC'` and an empty part. |
| StreamTitle.CutTitleSegments | AndroidApp/app/src/main/java/org/y20k/transistor/helpers/MetadataHelper.java:222-225 | Those parts announce `A` alone. |
| TimeFormat.DigitChar | AndroidApp/app/src/main/java/org/y20k/transistor/MainActivityFragment.java:756 | A digit value becomes a digit character. |
| TimeFormat.DigitValue | AndroidApp/app/src/main/java/org/y20k/transistor/MainActivityFragment.java:756 | A digit character has a value below 10. |
| TimeFormat.Decimal | AndroidApp/app/src/main/java/org/y20k/transistor/MainActivityFragment.java:756 | `%d`: at least one digit; exactly one for values below 10, at most two below 100. |
| TimeFormat.DecimalRoundTrip | AndroidApp/app/src/main/java/org/y20k/transistor/MainActivityFragment.java:756 | Round trip: reading back the printed digits gives the number. |
| TimeFormat.LeadingZero | AndroidApp/app/src/main/java/org/y20k/transistor/MainActivityFragment.java:756 | A leading zero does not change the value read. |
| TimeFormat.Pad2 | AndroidApp/app/src/main/java/org/y20k/transistor/MainActivityFragment.java:756 | `%02d`: at least two digits, exactly two below 100, and they read back as the number. |
| TimeFormat.SecondsOfMinute | AndroidApp/app/src/main/java/org/y20k/transistor/MainActivityFragment.java:757-759 | The seconds field, whole seconds minus 60 times whole minutes, is the seconds modulo 60, so it lies in [0, 60). |
| TimeFormat.ReadableTime | AndroidApp/app/src/main/java/org/y20k/transistor/MainActivityFragment.java:755-760 | `MM:SS`: digits that read back as ms / 60000, a colon, and two digits that read back as (ms / 1000) mod 60. Below 100 minutes the text is exactly five characters long. |
| TimeFormat.FifteenMinutes | AndroidApp/app/src/main/java/org/y20k/transistor/MainActivityFragment.java:672 | The sleep duration 900000 ms shows as `15:00`. |
| ImageSizing.PowerOfTwoBelowDouble | AndroidApp/app/src/main/java/org/y20k/transistor/helpers/ImageHelper.java:243-248 | No power of two lies strictly between s and 2s. |
| ImageSizing.QuotientAtLeastOne | AndroidApp/app/src/main/java/org/y20k/transistor/helpers/ImageHelper.java:245-246 | A truncated quotient of at least 1 means the dividend is at least the divisor. |
| ImageSizing.CalculateSampleParameter | AndroidApp/app/src/main/java/org/y20k/transistor/helpers/ImageHelper.java:232-251 | The factor is a power of two that fits an `int`. It is 1 when the image fits the box. Otherwise, at the factor, half a dimension divided by it is within the box on one side. At every smaller power of two, both halves stay above it. |
| ImageSizing.ScreenSizeClass | AndroidApp/app/src/main/java/org/y20k/transistor/helpers/ImageHelper.java:296 | Masking with `SCREENLAYOUT_SIZE_MASK` gives a class from 0 to 15. |
| ImageSizing.IconSizeForDensity | AndroidApp/app/src/main/java/org/y20k/transistor/helpers/ImageHelper.java:298-331 | The density switch each recognised size class runs: a 48 dp icon at a tabulated density (size·160 = 48·dpi), and the default 192 for the TV density and any other. |
| ImageSizing.IconSize | AndroidApp/app/src/main/java/org/y20k/transistor/helpers/ImageHelper.java:293-441 | The size is one of 36, 48, 72, 96, 144 or 192. For a recognised size class and a tabulated density it is a 48 dp icon at that density (size·160 = 48·dpi). Otherwise it is the default 192. |
| ImageSizing.IconSizeIgnoresSizeClass | AndroidApp/app/src/main/java/org/y20k/transistor/helpers/ImageHelper.java:296-439 | The four recognised size classes give the same size for every density. |
| ImageSizing.IconSizeMonotone | AndroidApp/app/src/main/java/org/y20k/transistor/helpers/ImageHelper.java:299-322 | Over the tabulated densities, a denser screen never gets a smaller icon. |
| ShoutcastProxy.Utf8Char | AndroidApp/app/src/main/java/org/y20k/transistor/helpers/MetadataHelper.java:166 | A character encodes to 1 to 4 bytes, and to one byte, its own code, exactly when it is ASCII. |
| ShoutcastProxy.Utf8 | AndroidApp/app/src/main/java/org/y20k/transistor/helpers/MetadataHelper.java:166 | `getBytes(UTF_8)` never yields fewer bytes than characters. |
| ShoutcastProxy.Utf8Append | AndroidApp/app/src/main/java/org/y20k/transistor/helpers/MetadataHelper.java:163-166 | Encoding a concatenation is concatenating the encodings. |
| ShoutcastProxy.Utf8Ascii | AndroidApp/app/src/main/java/org/y20k/transistor/helpers/MetadataHelper.java:163-166 | ASCII text encodes to its own codes, one byte per character. |
| ShoutcastProxy.ContentTypeText | AndroidApp/app/src/main/java/org/y20k/transistor/helpers/MetadataHelper.java:165 | The upstream content type as text: itself, or `null` when the server sent none. |
| ShoutcastProxy.HeaderText | AndroidApp/app/src/main/java/org/y20k/transistor/helpers/MetadataHelper.java:163-166 | The header is the `HTTP/1.0 200 OK` status line, the no-cache pragma, `Content-Type: ` with the type, and a blank line, field by field. |
| ShoutcastProxy.FallbackRequest | AndroidApp/app/src/main/java/org/y20k/transistor/helpers/MetadataHelper.java:173-178 | With the bit rate floored at 32, the fallback length is min(bitRate·64, 16384), between 2048 and 16384. |
| ShoutcastProxy.FallbackRequestAsWritten | AndroidApp/app/src/main/java/org/y20k/transistor/helpers/MetadataHelper.java:178 | The length as the `int` product computes it: at most 16384, and equal to the intended one while bitRate·64 fits an `int`. |
| ShoutcastProxy.FallbackOverflows | AndroidApp/app/src/main/java/org/y20k/transistor/helpers/MetadataHelper.java:173-184 | For `icy-br: 33554432` the length as written is the smallest `int`, where the intended one is 16384. |
| ShoutcastProxy.RequestSize | AndroidApp/app/src/main/java/org/y20k/transistor/helpers/MetadataHelper.java:176-182 | The requested length is between 1 and 16384 and at most what is available, or at most the fallback when nothing is. With metadata on, it never reaches past the next length byte. It is the largest length within all these caps. |
| ShoutcastProxy.Read | AndroidApp/app/src/main/java/org/y20k/transistor/helpers/MetadataHelper.java:184-210 | `read(buf, off, len)`: -1 at the end of the stream with the buffer untouched. Otherwise 1 to len bytes, the next ones of the stream, in `buf[off..]`, the rest of the buffer unchanged. |
| ShoutcastProxy.ReadPayload | AndroidApp/app/src/main/java/org/y20k/transistor/helpers/MetadataHelper.java:208-219 | The metadata loop leaves the whole block in `buf[..size]` when the stream holds it. Otherwise it stops at the end of the stream. |
| ShoutcastProxy.AllTitles | AndroidApp/app/src/main/java/org/y20k/transistor/helpers/MetadataHelper.java:221-228 | The relay never announces an empty title. |
| ShoutcastProxy.ProbeTitle | AndroidApp/app/src/main/java/org/y20k/transistor/helpers/MetadataHelper.java:334-360 | The probe announces at most one title per block. |
| ShoutcastProxy.ProbeTitleIsFirst | AndroidApp/app/src/main/java/org/y20k/transistor/helpers/MetadataHelper.java:334-360 | The probe's title for a block is the first of the titles the relay announces for it, if there is one. |
| ShoutcastProxy.FirstTitles | AndroidApp/app/src/main/java/org/y20k/transistor/helpers/MetadataHelper.java:334-360 | At most one title per block, never an empty one. |
| ShoutcastProxy.AllTitlesSnoc | AndroidApp/app/src/main/java/org/y20k/transistor/helpers/MetadataHelper.java:195-229 | One more block adds its titles after the earlier ones, for the relay and for the probe. |
| ShoutcastProxy.EmptyBlockTitles | AndroidApp/app/src/main/java/org/y20k/transistor/helpers/MetadataHelper.java:204-206 | An empty block carries no title. |
| ShoutcastProxy.CompleteBlocks | AndroidApp/app/src/main/java/org/y20k/transistor/helpers/MetadataHelper.java:209-219 | The complete blocks are all the blocks, or all but a truncated last one. |
| ShoutcastProxy.AnnounceTitles | AndroidApp/app/src/main/java/org/y20k/transistor/helpers/MetadataHelper.java:222-228 | The relay's segment loop announces exactly the block's titles, in segment order. |
| ShoutcastProxy.AnnounceFirstTitle | AndroidApp/app/src/main/java/org/y20k/transistor/helpers/MetadataHelper.java:335-360 | The probe's segment loop announces exactly the first non-empty title, then stops. |
| ShoutcastProxy.NoTitleYet | AndroidApp/app/src/main/java/org/y20k/transistor/helpers/MetadataHelper.java:335-360 | A segment without a title keeps the probe looking. |
| ShoutcastProxy.FirstTitleAt | AndroidApp/app/src/main/java/org/y20k/transistor/helpers/MetadataHelper.java:340-356 | The first segment with a title gives the block's first title. |
| ShoutcastProxy.TitlesThroughSegment | AndroidApp/app/src/main/java/org/y20k/transistor/helpers/MetadataHelper.java:335-360 | Before any title, the titles through segment i are those of segment i. |
| ShoutcastProxy.FirstTitleOfAppend | AndroidApp/app/src/main/java/org/y20k/transistor/helpers/MetadataHelper.java:335-360 | Segments after the first title do not change it. |
| ShoutcastProxy.EmptyBlockStep | AndroidApp/app/src/main/java/org/y20k/transistor/helpers/MetadataHelper.java:202-206 | A zero length byte is an empty block, and a fresh audio run follows it. |
| ShoutcastProxy.EmptyBlockKeepsTitles | AndroidApp/app/src/main/java/org/y20k/transistor/helpers/MetadataHelper.java:204-206 | An empty block adds no title, for the relay or for the probe. |
| ShoutcastProxy.PayloadStep | AndroidApp/app/src/main/java/org/y20k/transistor/helpers/MetadataHelper.java:208-220 | The payload read after a length byte is the whole block, or a truncated one that ends the stream. |
| ShoutcastProxy.RelayTitlesStep | AndroidApp/app/src/main/java/org/y20k/transistor/helpers/MetadataHelper.java:221-228 | After a complete block, the relay has announced exactly the titles of all blocks so far. After a truncated one, it has announced at least those of the complete blocks. |
| ShoutcastProxy.ProbeTitlesStep | AndroidApp/app/src/main/java/org/y20k/transistor/helpers/MetadataHelper.java:334-360 | The same for the probe's first titles. |
| ShoutcastProxy.RelayStarts | AndroidApp/app/src/main/java/org/y20k/transistor/helpers/MetadataHelper.java:163-174 | Before the first read, the player has the header and nothing has been taken apart. |
| ShoutcastProxy.RelayAudio | AndroidApp/app/src/main/java/org/y20k/transistor/helpers/MetadataHelper.java:184-194 | The bytes read are written to the player. With metadata on, they are the stream's next audio bytes. |
| ShoutcastProxy.RelayEnds | AndroidApp/app/src/main/java/org/y20k/transistor/helpers/MetadataHelper.java:188-201 | At the end of the stream, the relay has done everything it promises. |
| ShoutcastProxy.CompleteTitles | AndroidApp/app/src/main/java/org/y20k/transistor/helpers/MetadataHelper.java:221-228 | The titles of the complete blocks come first among those announced. |
| ShoutcastProxy.AppendAssoc | AndroidApp/app/src/main/java/org/y20k/transistor/helpers/MetadataHelper.java:192 | Writing chunks one after another is associative. |
| ShoutcastProxy.RelayEmptyBlock | AndroidApp/app/src/main/java/org/y20k/transistor/helpers/MetadataHelper.java:202-206 | A zero length byte is skipped: no title, and the audio counter restarts at 0. |
| ShoutcastProxy.RelayBlock | AndroidApp/app/src/main/java/org/y20k/transistor/helpers/MetadataHelper.java:207-228 | A block read and announced keeps the relay's invariant, and a fresh run starts after it. |
| ShoutcastProxy.RelayMetadata | AndroidApp/app/src/main/java/org/y20k/transistor/helpers/MetadataHelper.java:195-229 | The metadata branch moves past the length byte, resets the audio counter to 0, and keeps the relay's invariant. |
| ShoutcastProxy.ShoutcastProxyReaderLoop | AndroidApp/app/src/main/java/org/y20k/transistor/helpers/MetadataHelper.java:153-231 | With metadata on, the player gets the header and then exactly the stream's audio, in order. The titles announced are exactly the complete blocks' titles, or begin with them when the stream cuts a block. Without metadata, every byte is relayed and nothing is announced. No title is empty. |
| ShoutcastProxy.ProbeStarts | AndroidApp/app/src/main/java/org/y20k/transistor/helpers/MetadataHelper.java:274-282 | Before the first read, nothing has been read or announced. |
| ShoutcastProxy.ProbeAudio | AndroidApp/app/src/main/java/org/y20k/transistor/helpers/MetadataHelper.java:297-305 | Audio bytes read move the probe along the stream's audio. |
| ShoutcastProxy.ProbeStops | AndroidApp/app/src/main/java/org/y20k/transistor/helpers/MetadataHelper.java:283-304 | Wherever the probe stops, it has announced the first titles of the stream's first blocks. At the end of the stream, it has read every block. |
| ShoutcastProxy.ProbeEmptyBlock | AndroidApp/app/src/main/java/org/y20k/transistor/helpers/MetadataHelper.java:314-318 | A zero length byte counts as a block, announces nothing, and restarts the audio counter. |
| ShoutcastProxy.ProbeBlock | AndroidApp/app/src/main/java/org/y20k/transistor/helpers/MetadataHelper.java:319-360 | A block read with its first title announced keeps the probe's invariant. |
| ShoutcastProxy.ProbeMetadata | AndroidApp/app/src/main/java/org/y20k/transistor/helpers/MetadataHelper.java:306-361 | The probe's metadata branch reads one more block, resets the audio counter, and keeps the probe's invariant. |
| ShoutcastProxy.PrepareMetadata | AndroidApp/app/src/main/java/org/y20k/transistor/helpers/MetadataHelper.java:274-362 | The probe makes at most 21 rounds. It announces the first title of each of the stream's first blocks, none empty, and nothing without metadata. If it stops before the last block, the counter or the thread check stopped it. |
| SleepTimer.Stored | AndroidApp/app/src/main/java/org/y20k/transistor/MainActivityFragment.java:765-769 | `getBoolean` and `getInt`: the stored value, or the default for a key never written. |
| SleepTimer.TimerText | AndroidApp/app/src/main/java/org/y20k/transistor/MainActivityFragment.java:728-733 | The snackbar text is the message followed by `MM:SS` when time is left, and the message alone otherwise. |
| SleepTimer.MainActivityFragment.constructor | AndroidApp/app/src/main/java/org/y20k/transistor/MainActivityFragment.java:129-160 | The message is the "timer set" text and a space. The service object exists. The flags are loaded from the preferences. |
| SleepTimer.MainActivityFragment.LoadAppState | AndroidApp/app/src/main/java/org/y20k/transistor/MainActivityFragment.java:764-772 | Every flag equals its stored value, or the source's default for an unwritten key. |
| SleepTimer.MainActivityFragment.SaveAppState | AndroidApp/app/src/main/java/org/y20k/transistor/MainActivityFragment.java:776-784 | Only the current station, playback and timer keys are written. Loading them back gives the current playback and timer flags. |
| SleepTimer.MainActivityFragment.ShowSleepTimerNotification | AndroidApp/app/src/main/java/org/y20k/transistor/MainActivityFragment.java:725-751 | A shown snackbar with the timer text for the remaining time. |
| SleepTimer.MainActivityFragment.StartSleepTimer | AndroidApp/app/src/main/java/org/y20k/transistor/MainActivityFragment.java:694-705 | The service exists and gets one start request for the duration. The snackbar shows the duration. The timer runs. |
| SleepTimer.MainActivityFragment.StopSleepTimer | AndroidApp/app/src/main/java/org/y20k/transistor/MainActivityFragment.java:709-721 | The timer is off afterwards, always. An existing service gets a stop request, a shown snackbar is dismissed, and a "cancelled" toast shows. |
| SleepTimer.MainActivityFragment.CancelFromNotification | AndroidApp/app/src/main/java/org/y20k/transistor/MainActivityFragment.java:739-747 | The snackbar's cancel action stops the service, turns the timer off, saves it as off, and shows a "cancelled" toast. |
| SleepTimer.MainActivityFragment.HandleMenuSleepTimerClick | AndroidApp/app/src/main/java/org/y20k/transistor/MainActivityFragment.java:667-690 | All five flags are reloaded from the preferences first, in every case. While playing, the timer is (re)started for 15 minutes and runs, with an "activated" or "increased by 15:00" toast. Not playing: no request and no snackbar change, and only an "unable" toast when no timer runs. A timer request is only ever made while playing. |
| SleepTimer.MainActivityFragment.OnTimerUpdate | AndroidApp/app/src/main/java/org/y20k/transistor/MainActivityFragment.java:839-857 | With time left, only the snackbar text changes. At zero, the snackbar is dismissed and playback and timer are off and saved. Without a snackbar, nothing changes. |
| SleepTimer.MainActivityFragment.HandlePlaybackStateChanges | AndroidApp/app/src/main/java/org/y20k/transistor/MainActivityFragment.java:873-885 | Other codes change nothing. "Playback stopped" reloads all five flags and leaves the timer off. With a stored running timer it also sends one stop request, dismisses a shown snackbar and shows a "cancelled" toast. Without one it changes nothing else. |
| SleepTimer.MainActivityFragment.ToggleActionCall | AndroidApp/app/src/main/java/org/y20k/transistor/MainActivityFragment.java:555-577 | The empty view shows exactly when there are no items, and the list exactly when there are. The refresh button shows exactly while the initial data is not loaded. An empty two-pane list removes the player pane. |
| SleepTimer.MainActivityFragment.RunInitialDataRefreshIfFirstTime | AndroidApp/app/src/main/java/org/y20k/transistor/MainActivityFragment.java:241-288 | The initial-data flag becomes set exactly when it was set or stations exist, and is never cleared. Once loaded, only the views are toggled (as toggleActionCall, pane removal included), with no toast or dialog. An empty database shows the call to action, an online/offline toast and, when online, the import dialog, and no other view changes. Stations without the mark only set the mark, and nothing else changes. |
| Player.Collapsed | AndroidApp/app/src/main/java/org/y20k/transistor/PlayerActivity.java:95 | For a non-negative scroll range, the toolbar counts as collapsed exactly when the offset is the range or its negation. `Math.abs` wrapping at the smallest `int` never gives a false match. |
| Player.CrashesAsWritten | AndroidApp/app/src/main/java/org/y20k/transistor/PlayerActivity.java:285-306 | The unguarded `mStation._ID` in the rename and image cases: only a rename or image event carrying a station can throw, and never while a station is shown. |
| Player.RenameWithoutStationCrashes | AndroidApp/app/src/main/java/org/y20k/transistor/PlayerActivity.java:284-287 | A rename broadcast reaching a player screen with no station dereferences the missing station. |
| Player.PlayerActivity.constructor | AndroidApp/app/src/main/java/org/y20k/transistor/PlayerActivity.java:110-181 | A "show player" intent with a station shows it: image, titles, and buttons that match its playback state. Otherwise there is no station and playback is off. |
| Player.PlayerActivity.SetStationTitleUi | AndroidApp/app/src/main/java/org/y20k/transistor/PlayerActivity.java:194-200 | The shown title and subtitle are the station's. |
| Player.PlayerActivity.SetStationImageUi | AndroidApp/app/src/main/java/org/y20k/transistor/PlayerActivity.java:202-210 | The station image is set once more. |
| Player.PlayerActivity.UpdateUiStatus | AndroidApp/app/src/main/java/org/y20k/transistor/PlayerActivity.java:212-225 | The playback flag becomes the station's playback state, and both buttons show "stop" exactly when it is set. |
| Player.PlayerActivity.HandlePlaybackStateChanges | AndroidApp/app/src/main/java/org/y20k/transistor/PlayerActivity.java:315-352 | On any screen: a loading, started or stopped event for the shown station's stream leaves the flag equal to the station's own state and both buttons showing "stop" exactly when it is set, since the `true`/`false` just set is overwritten. Events for another stream, other codes, or no station shown change nothing. On a consistent screen the handler therefore changes nothing, and the screen stays consistent. |
| Player.PlayerActivity.HandleCollectionChanges | AndroidApp/app/src/main/java/org/y20k/transistor/PlayerActivity.java:281-312 | On any screen: a rename of the shown station (same id, new name supplied) copies its title and subtitle and shows them. An image change of it sets the image again. Deletion and every other event change nothing. A consistent screen stays consistent. |
| Player.PlayerActivity.HandleCollectionChangesAsWritten | AndroidApp/app/src/main/java/org/y20k/transistor/PlayerActivity.java:281-312 | As written, the handler throws exactly when a rename or image event reaches a screen with no station, and then changes nothing. Otherwise it has exactly the checked handler's rename, image and no-op effects. |
| Player.PlayerActivity.OnOffsetChanged | AndroidApp/app/src/main/java/org/y20k/transistor/PlayerActivity.java:92-108 | The bottom play button is visible exactly while the toolbar is collapsed: for a non-negative range, when the offset is ± the range. |

## Left out

- Sockets, the proxy server socket, HTTP connections, and the threads in `createShoutcastProxyConnection` and `prepareMetadata` are not modelled. The stream is a byte sequence, and the network's behaviour is given by oracles.
- The busy-wait in `closeShoutcastProxyConnection`, and the thread replacement that stops the probe, are concurrency. The probe asks an oracle `current` before each round instead.
- UTF-8 decoding of the metadata is not modelled: each metadata byte becomes the character with that code. Titles are exact for ASCII metadata.
- ShoutcastProxy.ShoutcastProxyReaderLoop: a truncated last block is parsed from a buffer that still holds bytes of the previous block. The titles it yields are only constrained to be non-empty and to come after the complete blocks' titles.
- ShoutcastProxy.PrepareMetadata: likewise for a truncated last block.
- Both reader loops request the corrected fallback length (ShoutcastProxy.FallbackRequest). The 32-bit overflow of the written one is shown separately (see Findings).
- The `count == 0` branches after `read` are not modelled: `InputStream.read` with a positive length never returns 0.
- With metadata off, the audio counter `total` in the loops is an unbounded integer. The source's `int` would wrap after 2 GiB of stream, and that wrap has no effect on what is relayed.
- The broadcast intents, the stored `PREF_STATION_METADATA` value, toasts' texts and the snackbar's framework behaviour (an action dismissing it) are not modelled. The model keeps logs of titles, toasts and timer requests.
- SleepTimer.MainActivityFragment.SaveAppState: the app-wide currently selected station id comes from a singleton; the model takes it as a parameter.
- Initial data import itself (the dialog, downloads, the database) and `isOnline` are inputs: a station count, an item count and an online flag.
- The rest of `MainActivityFragment` (list, menus, image picking, permissions, `onResume`) is framework plumbing and not modelled.
- Player.PlayerActivity.HandlePlaybackStateChanges: the event's station is assumed present. The source would throw on a playback broadcast without one while a station is shown.
- TimeFormat.ReadableTime: always prints ASCII digits. The source formats with `Locale.getDefault()`, which prints the locale's own digits (Arabic-Indic digits in an Arabic locale, for example). The model holds for locales that use ASCII digits.
- TimeFormat.DigitChar: the ASCII digit for a value, for the same reason; the locale's digit set is not a parameter.
- IcyFraming.Demux: byte conservation is stated by the lemma IcyFraming.DemuxConservesBytes, not as a postcondition of Demux. Attached to Demux, it would enter every reader-loop proof that mentions Demux, and those proofs would then exceed the verifier's resource limit.
- The station image file lookup and the Fresco transitions in `PlayerActivity` are not modelled; setting the image is counted.
- ImageSizing.CalculateSampleParameter requires a non-negative requested height or width. With both negative, the source doubles until the `int` overflows to 0 and then divides by zero.
- Bitmap decoding, the transformation matrix, the circular framed image and the rounded transform in `ImageHelper` are floating-point graphics and are not modelled.
- `CollectionAdapterViewHolder` and `SplashActivity` are UI and are not part of this model.

## Findings

| source | as written | input that shows it | evidently intended | confidence | as-written member | corrected member |
|---|---|---|---|---|---|---|
| AndroidApp/app/src/main/java/org/y20k/transistor/helpers/MetadataHelper.java:178 | `Math.min(bitRate * 64, buf.length)` multiplies in 32-bit `int` | header `icy-br: 33554432` with nothing available: the product wraps to -2147483648, and `read` throws on the negative length (lemma ShoutcastProxy.FallbackOverflows) | half a second of audio capped at 16384 bytes, never negative | medium, not executed | ShoutcastProxy.FallbackRequestAsWritten | ShoutcastProxy.FallbackRequest |
| AndroidApp/app/src/main/java/org/y20k/transistor/PlayerActivity.java:287 | `station._ID == mStation._ID` with no null check, unlike the playback handler | a player screen opened without a station receives a rename broadcast (with a new name and a station) or an image-change broadcast: `mStation` is null (lemma Player.RenameWithoutStationCrashes) | ignore collection events when no station is shown | high, not executed | Player.PlayerActivity.HandleCollectionChangesAsWritten | Player.PlayerActivity.HandleCollectionChanges |
