/**
 * The SHOUTcast/ICY stream layout: `metaint` audio bytes, then one length byte L, then L * 16
 * bytes of metadata, repeated until the stream ends. This module says what taking such a stream
 * apart means, and proves it the inverse of putting one together.
 */
module IcyFraming {
  import opened JavaInt

  /** The largest metadata block a length byte can announce: 255 * 16. */
  const MaxMetadataLength := 4080

  /**
   * A stream taken apart: its audio bytes in order, its metadata blocks in order, and whether the
   * last block was cut short by the end of the stream.
   */
  datatype Frames = Frames(audio: seq<byte>, blocks: seq<seq<byte>>, truncated: bool)

  const NoFrames := Frames([], [], false)

  /** One part of a stream followed by the next. */
  function Concat(a: Frames, b: Frames): Frames {
    Frames(a.audio + b.audio, a.blocks + b.blocks, a.truncated || b.truncated)
  }

  /** `f` followed by one more metadata block. */
  function AddBlock(f: Frames, block: seq<byte>, truncated: bool): Frames {
    Frames(f.audio, f.blocks + [block], f.truncated || truncated)
  }

  lemma ConcatBlock(f: Frames, block: seq<byte>, truncated: bool)
    ensures Concat(f, Frames([], [block], truncated)) == AddBlock(f, block, truncated)
  {
    assert f.audio + [] == f.audio;
  }

  function AudioOnly(audio: seq<byte>): Frames {
    Frames(audio, [], false)
  }

  /** The metadata lengths of all blocks added up. */
  function MetadataBytes(blocks: seq<seq<byte>>): nat {
    if blocks == [] then 0 else |blocks[0]| + MetadataBytes(blocks[1..])
  }

  /**
   * Takes apart `s`, which begins `left` audio bytes before the next length byte. Only a last
   * block can be truncated.
   */
  function DemuxFrom(s: seq<byte>, metaint: nat, left: nat): (f: Frames)
    requires 0 < metaint && left <= metaint
    ensures f.truncated ==> |f.blocks| > 0
    decreases |s|
  {
    if |s| == 0 then NoFrames
    else if left > 0 then
      var f := DemuxFrom(s[1..], metaint, left - 1);
      f.(audio := [s[0]] + f.audio)
    else
      var size := s[0] as nat * 16;
      if |s| - 1 < size then Frames([], [s[1..]], true)
      else
        var f := DemuxFrom(s[1 + size..], metaint, metaint);
        f.(blocks := [s[1..1 + size]] + f.blocks)
  }

  /** A whole stream: it begins with a full run of `metaint` audio bytes. */
  function Demux(s: seq<byte>, metaint: nat): (f: Frames)
    requires 0 < metaint
    ensures f.truncated ==> |f.blocks| > 0
  {
    DemuxFrom(s, metaint, metaint)
  }

  /**
   * Every block is at most 4080 bytes long, and every block but a truncated last one is a multiple
   * of 16 bytes: a length byte times 16.
   */
  predicate WellSized(f: Frames) {
    forall i :: 0 <= i < |f.blocks| ==>
      |f.blocks[i]| <= MaxMetadataLength && (|f.blocks[i]| % 16 == 0 || (f.truncated && i == |f.blocks| - 1))
  }

  lemma {:induction false} DemuxBlockSizes(s: seq<byte>, metaint: nat, left: nat)
    requires 0 < metaint && left <= metaint
    ensures WellSized(DemuxFrom(s, metaint, left))
    decreases |s|
  {
    if |s| > 0 {
      var f := DemuxFrom(s, metaint, left);
      if left > 0 {
        DemuxBlockSizes(s[1..], metaint, left - 1);
        var g := DemuxFrom(s[1..], metaint, left - 1);
        assert f.blocks == g.blocks && f.truncated == g.truncated;
      } else if |s| - 1 >= s[0] as nat * 16 {
        var size := s[0] as nat * 16;
        DemuxBlockSizes(s[1 + size..], metaint, metaint);
        var g := DemuxFrom(s[1 + size..], metaint, metaint);
        assert f.blocks == [s[1..1 + size]] + g.blocks && f.truncated == g.truncated;
        assert size <= MaxMetadataLength && size % 16 == 0 by {
          assert s[0] as nat <= 255;
        }
        forall i | 0 <= i < |f.blocks|
          ensures |f.blocks[i]| <= MaxMetadataLength
          ensures |f.blocks[i]| % 16 == 0 || (f.truncated && i == |f.blocks| - 1)
        {
          if i == 0 {
            assert |f.blocks[i]| == size;
          } else {
            assert f.blocks[i] == g.blocks[i - 1];
          }
        }
      } else {
        assert s[0] as nat <= 255;
        assert f.blocks == [s[1..]];
      }
    }
  }

  /** Reading `n` audio bytes, no more than are left before the length byte, moves them to the audio. */
  lemma {:induction false} DemuxAudioPrefix(s: seq<byte>, metaint: nat, left: nat, n: nat)
    requires 0 < metaint && left <= metaint
    requires n <= left && n <= |s|
    ensures DemuxFrom(s, metaint, left) == Concat(AudioOnly(s[..n]), DemuxFrom(s[n..], metaint, left - n))
    decreases n
  {
    if n == 0 {
      assert s[..0] == [] && s[0..] == s;
      var f := DemuxFrom(s, metaint, left);
      assert [] + f.audio == f.audio && [] + f.blocks == f.blocks;
    } else {
      DemuxAudioPrefix(s[1..], metaint, left - 1, n - 1);
      assert s[1..][n - 1..] == s[n..];
      assert [s[0]] + s[1..][..n - 1] == s[..n];
      var g := DemuxFrom(s[n..], metaint, left - n);
      assert [s[0]] + (s[1..][..n - 1] + g.audio) == s[..n] + g.audio;
    }
  }

  /** At a length byte with the whole block present, the block is split off and a fresh audio run starts. */
  lemma DemuxMetadataBlock(s: seq<byte>, metaint: nat)
    requires 0 < metaint && |s| >= 1 && |s| >= 1 + s[0] as nat * 16
    ensures var size := s[0] as nat * 16;
            DemuxFrom(s, metaint, 0) == Concat(Frames([], [s[1..1 + size]], false), DemuxFrom(s[1 + size..], metaint, metaint))
  {
    var f := DemuxFrom(s[1 + s[0] as nat * 16..], metaint, metaint);
    assert [] + f.audio == f.audio;
  }

  /** At a length byte whose block the stream does not finish, the rest of the stream is a truncated block. */
  lemma DemuxTruncatedBlock(s: seq<byte>, metaint: nat)
    requires 0 < metaint && 1 <= |s| < 1 + s[0] as nat * 16
    ensures DemuxFrom(s, metaint, 0) == Frames([], [s[1..]], true)
  {
  }

  lemma ConcatAssoc(a: Frames, b: Frames, c: Frames)
    ensures Concat(Concat(a, b), c) == Concat(a, Concat(b, c))
  {
    assert (a.audio + b.audio) + c.audio == a.audio + (b.audio + c.audio);
    assert (a.blocks + b.blocks) + c.blocks == a.blocks + (b.blocks + c.blocks);
  }

  // The four steps of a reader that keeps `Demux(s, metaint) == Concat(acc, DemuxFrom(s[pos..], metaint, left))`:
  // it has taken apart `acc` and stands at `pos`, `left` audio bytes before the next length byte.

  /** Reading `n` audio bytes at `pos`. */
  lemma AudioStep(s: seq<byte>, pos: nat, metaint: nat, total: nat, n: nat, acc: Frames)
    requires 0 < metaint && total + n <= metaint && pos + n <= |s|
    requires Demux(s, metaint) == Concat(acc, DemuxFrom(s[pos..], metaint, metaint - total))
    ensures Demux(s, metaint)
            == Concat(acc.(audio := acc.audio + s[pos..pos + n]), DemuxFrom(s[pos + n..], metaint, metaint - (total + n)))
  {
    DemuxAudioPrefix(s[pos..], metaint, metaint - total, n);
    assert s[pos..][..n] == s[pos..pos + n];
    assert s[pos..][n..] == s[pos + n..];
    ConcatAssoc(acc, AudioOnly(s[pos..pos + n]), DemuxFrom(s[pos + n..], metaint, metaint - (total + n)));
    assert acc.blocks + [] == acc.blocks;
  }

  /** Reading the length byte at `pos` and the whole block it announces. */
  lemma BlockStep(s: seq<byte>, pos: nat, metaint: nat, acc: Frames)
    requires 0 < metaint && pos < |s| && pos + 1 + s[pos] as nat * 16 <= |s|
    requires Demux(s, metaint) == Concat(acc, DemuxFrom(s[pos..], metaint, 0))
    ensures var end := pos + 1 + s[pos] as nat * 16;
            Demux(s, metaint)
            == Concat(AddBlock(acc, s[pos + 1..end], false), DemuxFrom(s[end..], metaint, metaint))
  {
    var size := s[pos] as nat * 16;
    var end := pos + 1 + size;
    var t := s[pos..];
    assert t[0] == s[pos];
    assert t[1..1 + size] == s[pos + 1..end];
    assert t[1 + size..] == s[end..];
    var g := DemuxFrom(s[end..], metaint, metaint);
    assert DemuxFrom(t, metaint, 0) == Frames(g.audio, [s[pos + 1..end]] + g.blocks, g.truncated);
    assert acc.blocks + ([s[pos + 1..end]] + g.blocks) == (acc.blocks + [s[pos + 1..end]]) + g.blocks;
  }

  /** Reading the length byte at `pos` of a block the stream does not finish. */
  lemma TruncatedStep(s: seq<byte>, pos: nat, metaint: nat, acc: Frames)
    requires 0 < metaint && pos < |s| < pos + 1 + s[pos] as nat * 16
    requires Demux(s, metaint) == Concat(acc, DemuxFrom(s[pos..], metaint, 0))
    ensures Demux(s, metaint) == AddBlock(acc, s[pos + 1..], true)
  {
    var t := s[pos..];
    assert t[0] == s[pos];
    DemuxTruncatedBlock(t, metaint);
    assert t[1..] == s[pos + 1..];
    ConcatBlock(acc, s[pos + 1..], true);
  }

  lemma ConcatNoFrames(a: Frames)
    ensures Concat(a, NoFrames) == a
  {
    assert a.audio + [] == a.audio;
    assert a.blocks + [] == a.blocks;
  }

  /** At the end of the stream, everything has been taken apart. */
  lemma EndOfStream(s: seq<byte>, metaint: nat, left: nat, acc: Frames)
    requires 0 < metaint && left <= metaint
    requires Demux(s, metaint) == Concat(acc, DemuxFrom(s[|s|..], metaint, left))
    ensures Demux(s, metaint) == acc
  {
    assert s[|s|..] == [];
    ConcatNoFrames(acc);
  }

  /** Whatever a reader has taken apart so far is a prefix of the whole; a truncated block ends the stream. */
  lemma ReaderProgress(s: seq<byte>, metaint: nat, pos: nat, left: nat, acc: Frames)
    requires 0 < metaint && left <= metaint && pos <= |s|
    requires Demux(s, metaint) == Concat(acc, DemuxFrom(s[pos..], metaint, left))
    requires acc.truncated ==> pos == |s|
    ensures acc.audio <= Demux(s, metaint).audio && acc.blocks <= Demux(s, metaint).blocks
    ensures acc.truncated ==> Demux(s, metaint) == acc
  {
    if acc.truncated {
      EndOfStream(s, metaint, left, acc);
    }
  }

  /**
   * Every byte of the stream is accounted for exactly once: as audio, as a length byte (one per
   * block) or as metadata.
   */
  lemma {:induction false} DemuxConservesBytes(s: seq<byte>, metaint: nat, left: nat)
    requires 0 < metaint && left <= metaint
    ensures var f := DemuxFrom(s, metaint, left);
            |s| == |f.audio| + |f.blocks| + MetadataBytes(f.blocks)
    decreases |s|
  {
    if |s| > 0 {
      if left > 0 {
        DemuxConservesBytes(s[1..], metaint, left - 1);
      } else if |s| - 1 >= s[0] as nat * 16 {
        var size := s[0] as nat * 16;
        var rest := s[1 + size..];
        DemuxConservesBytes(rest, metaint, metaint);
        MetadataBytesPrepend(s[1..1 + size], DemuxFrom(rest, metaint, metaint).blocks);
      }
    }
  }

  lemma MetadataBytesPrepend(b: seq<byte>, blocks: seq<seq<byte>>)
    ensures MetadataBytes([b] + blocks) == |b| + MetadataBytes(blocks)
  {
    assert ([b] + blocks)[1..] == blocks;
  }

  /** One frame as a server sends it: a run of audio and the metadata that follows it. */
  datatype Frame = Frame(audio: seq<byte>, metadata: seq<byte>)

  predicate WellFormed(frame: Frame, metaint: nat) {
    |frame.audio| == metaint && |frame.metadata| % 16 == 0 && |frame.metadata| <= MaxMetadataLength
  }

  /** The server side: each frame's audio, its length byte, its metadata; then a final partial run of audio. */
  function Mux(frames: seq<Frame>, tail: seq<byte>, metaint: nat): seq<byte>
    requires forall i :: 0 <= i < |frames| ==> WellFormed(frames[i], metaint)
  {
    if frames == [] then tail
    else
      assert WellFormed(frames[0], metaint);
      frames[0].audio + [(|frames[0].metadata| / 16) as byte] + frames[0].metadata + Mux(frames[1..], tail, metaint)
  }

  function AllAudio(frames: seq<Frame>): seq<byte> {
    if frames == [] then [] else frames[0].audio + AllAudio(frames[1..])
  }

  function AllMetadata(frames: seq<Frame>): seq<seq<byte>> {
    if frames == [] then [] else [frames[0].metadata] + AllMetadata(frames[1..])
  }

  /** A full run of audio at the head of a stream, then the stream continues at a length byte. */
  lemma DemuxAudioRun(audio: seq<byte>, afterAudio: seq<byte>, metaint: nat)
    requires 0 < metaint && |audio| == metaint
    ensures Demux(audio + afterAudio, metaint) == Concat(AudioOnly(audio), DemuxFrom(afterAudio, metaint, 0))
  {
    var s := audio + afterAudio;
    DemuxAudioPrefix(s, metaint, metaint, metaint);
    assert s[..metaint] == audio && s[metaint..] == afterAudio;
  }

  /** A whole block after its length byte, then a fresh run of audio. */
  lemma DemuxBlock(metadata: seq<byte>, rest: seq<byte>, metaint: nat)
    requires 0 < metaint && |metadata| % 16 == 0 && |metadata| <= MaxMetadataLength
    ensures DemuxFrom([(|metadata| / 16) as byte] + metadata + rest, metaint, 0)
            == Concat(Frames([], [metadata], false), DemuxFrom(rest, metaint, metaint))
  {
    var s := [(|metadata| / 16) as byte] + metadata + rest;
    assert s[0] == (|metadata| / 16) as byte;
    DemuxMetadataBlock(s, metaint);
    assert s[1..1 + |metadata|] == metadata;
    assert s[1 + |metadata|..] == rest;
  }

  /** One well-formed frame at the head of a stream contributes its audio and its block, and a fresh run starts. */
  lemma DemuxFrame(fr: Frame, rest: seq<byte>, metaint: nat)
    requires 0 < metaint && WellFormed(fr, metaint)
    ensures Demux(fr.audio + [(|fr.metadata| / 16) as byte] + fr.metadata + rest, metaint)
            == Concat(Frames(fr.audio, [fr.metadata], false), Demux(rest, metaint))
  {
    var afterAudio := [(|fr.metadata| / 16) as byte] + fr.metadata + rest;
    assert fr.audio + [(|fr.metadata| / 16) as byte] + fr.metadata + rest == fr.audio + afterAudio;
    DemuxAudioRun(fr.audio, afterAudio, metaint);
    DemuxBlock(fr.metadata, rest, metaint);
    FrameConcat(fr, Demux(rest, metaint));
  }

  lemma FrameConcat(fr: Frame, g: Frames)
    ensures Concat(AudioOnly(fr.audio), Concat(Frames([], [fr.metadata], false), g))
            == Concat(Frames(fr.audio, [fr.metadata], false), g)
  {
    assert [] + g.audio == g.audio;
    assert [] + ([fr.metadata] + g.blocks) == [fr.metadata] + g.blocks;
  }

  /**
   * Taking apart what a server put together gives back exactly its audio, in order, and its
   * metadata blocks, in order: no length byte and no metadata byte reaches the audio.
   */
  lemma {:induction false} DemuxMux(frames: seq<Frame>, tail: seq<byte>, metaint: nat)
    requires 0 < metaint && |tail| <= metaint
    requires forall i :: 0 <= i < |frames| ==> WellFormed(frames[i], metaint)
    ensures Demux(Mux(frames, tail, metaint), metaint) == Frames(AllAudio(frames) + tail, AllMetadata(frames), false)
    decreases |frames|
  {
    if frames == [] {
      DemuxAudioPrefix(tail, metaint, metaint, |tail|);
      assert tail[..|tail|] == tail && tail[|tail|..] == [];
      assert tail + [] == tail;
    } else {
      DemuxFrame(frames[0], Mux(frames[1..], tail, metaint), metaint);
      DemuxMux(frames[1..], tail, metaint);
      assert AllAudio(frames) + tail == frames[0].audio + (AllAudio(frames[1..]) + tail);
    }
  }
}
