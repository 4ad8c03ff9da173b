/**
 * Song-title extraction from a SHOUTcast/ICY metadata block: the block's text is split on ';'
 * and every segment of the form StreamTitle='...' yields the text between the header and the
 * segment's last character.
 */
module StreamTitle {
  import opened JavaInt
  import opened Options

  /** The segment header that announces a title. */
  const TitleHeader: string := "StreamTitle='"

  /** A metadata block read as text, one character per byte. */
  function BlockText(block: seq<byte>): (text: string)
    ensures |text| == |block|
    ensures forall i :: 0 <= i < |block| ==> text[i] as int == block[i] as int
  {
    seq(|block|, i requires 0 <= i < |block| => (block[i] as int) as char)
  }

  /** Every ';'-separated piece of `s`, empty ones included. */
  function SplitAll(s: string): (parts: seq<string>)
    ensures |parts| >= 1
    ensures forall i :: 0 <= i < |parts| ==> ';' !in parts[i]
    decreases |s|
  {
    if s == [] then [""]
    else
      var rest := SplitAll(s[1..]);
      if s[0] == ';' then [""] + rest else [[s[0]] + rest[0]] + rest[1..]
  }

  /** The pieces put back together with ';' between them. */
  function Join(parts: seq<string>): string
    requires |parts| >= 1
  {
    if |parts| == 1 then parts[0] else parts[0] + ";" + Join(parts[1..])
  }

  /** Splitting loses nothing: joining the pieces gives the text back. */
  lemma {:induction false} JoinSplitAll(s: string)
    ensures Join(SplitAll(s)) == s
    decreases |s|
  {
    if s != [] {
      JoinSplitAll(s[1..]);
      var rest := SplitAll(s[1..]);
      if s[0] == ';' {
        assert SplitAll(s)[1..] == rest;
      } else if |rest| > 1 {
        assert SplitAll(s)[1..] == rest[1..];
        assert Join(rest) == rest[0] + ";" + Join(rest[1..]);
      }
    }
  }

  /** Text without ';' in front of `x` only lengthens the first piece of `x`. */
  lemma {:induction false} SplitAllPrefix(p: string, x: string)
    requires ';' !in p
    ensures SplitAll(p + x) == [p + SplitAll(x)[0]] + SplitAll(x)[1..]
    decreases |p|
  {
    var sx := SplitAll(x);
    if p == [] {
      assert p + x == x;
      assert p + sx[0] == sx[0];
      assert sx == [sx[0]] + sx[1..];
    } else {
      assert (p + x)[1..] == p[1..] + x;
      SplitAllPrefix(p[1..], x);
      var r := SplitAll(p[1..] + x);
      assert r[0] == p[1..] + sx[0];
      assert r[1..] == sx[1..];
      assert p[0] != ';';
      assert SplitAll(p + x) == [[p[0]] + r[0]] + r[1..];
      assert [p[0]] + (p[1..] + sx[0]) == p + sx[0];
    }
  }

  /** Joining pieces that contain no ';' and splitting again gives the same pieces. */
  lemma {:induction false} SplitAllJoin(parts: seq<string>)
    requires |parts| >= 1
    requires forall i :: 0 <= i < |parts| ==> ';' !in parts[i]
    ensures SplitAll(Join(parts)) == parts
    decreases |parts|
  {
    if |parts| == 1 {
      SplitAllPrefix(parts[0], "");
      assert parts[0] + "" == parts[0];
    } else {
      var tail := Join(parts[1..]);
      SplitAllJoin(parts[1..]);
      assert SplitAll(";" + tail) == [""] + parts[1..] by {
        assert (";" + tail)[1..] == tail;
      }
      assert parts[0] + ";" + tail == parts[0] + (";" + tail);
      SplitAllPrefix(parts[0], ";" + tail);
      assert parts[0] + "" == parts[0];
    }
  }

  /** Drops the empty pieces at the end of a split. */
  function DropTrailingEmpty(parts: seq<string>): (kept: seq<string>)
    ensures |kept| <= |parts| && kept == parts[..|kept|]
    ensures forall i :: |kept| <= i < |parts| ==> parts[i] == ""
    ensures kept == [] || kept[|kept| - 1] != ""
  {
    if parts == [] || parts[|parts| - 1] != "" then parts
    else DropTrailingEmpty(parts[..|parts| - 1])
  }

  /** Java's `String.split(";")`: text without ';' comes back whole; otherwise trailing empty pieces are dropped. */
  function JavaSplit(s: string): (parts: seq<string>)
    ensures forall i :: 0 <= i < |parts| ==> ';' !in parts[i]
  {
    if ';' !in s then [s] else DropTrailingEmpty(SplitAll(s))
  }

  /**
   * The title a segment carries: present when the segment starts with the header and is at least
   * one character longer; then the segment is the header, the title and one closing character.
   */
  function SegmentTitle(segment: string): (title: Option<string>)
    ensures title.Some? <==> |segment| > |TitleHeader| && TitleHeader <= segment
    ensures title.Some? ==> segment == TitleHeader + title.value + [segment[|segment| - 1]]
  {
    if |segment| >= |TitleHeader| + 1 && segment[..|TitleHeader|] == TitleHeader
    then Some(segment[|TitleHeader|..|segment| - 1])
    else None
  }

  /** A segment written by a server as StreamTitle='t' gives back exactly `t`. */
  lemma SegmentTitleRoundTrip(t: string)
    ensures SegmentTitle(TitleHeader + t + "'") == Some(t)
  {
    var seg := TitleHeader + t + "'";
    assert seg[..|TitleHeader|] == TitleHeader;
    assert seg[|TitleHeader|..|seg| - 1] == t;
  }

  /** What one segment contributes to the broadcasts: its title, if it has a non-empty one. */
  function Broadcasts(segment: string): (sent: seq<string>)
    ensures |sent| <= 1
    ensures "" !in sent
    ensures sent != [] <==> SegmentTitle(segment).Some? && SegmentTitle(segment).value != ""
  {
    match SegmentTitle(segment)
    case Some(t) => if t != "" then [t] else []
    case None => []
  }

  /** The non-empty titles of the segments, in segment order. */
  function SegmentTitles(segments: seq<string>): (titles: seq<string>)
    ensures |titles| <= |segments|
    ensures "" !in titles
  {
    if segments == [] then []
    else SegmentTitles(segments[..|segments| - 1]) + Broadcasts(segments[|segments| - 1])
  }

  /** The first non-empty title among the segments. */
  function FirstTitle(segments: seq<string>): (first: Option<string>)
    ensures first.Some? ==> first.value != ""
  {
    var titles := SegmentTitles(segments);
    if titles == [] then None else Some(titles[0])
  }

  lemma {:induction false} SegmentTitlesAppend(a: seq<string>, b: seq<string>)
    ensures SegmentTitles(a + b) == SegmentTitles(a) + SegmentTitles(b)
    decreases |b|
  {
    if b == [] {
      assert a + b == a;
    } else {
      var b' := b[..|b| - 1];
      assert (a + b)[..|a + b| - 1] == a + b';
      assert (a + b)[|a + b| - 1] == b[|b| - 1];
      SegmentTitlesAppend(a, b');
    }
  }

  /** Empty pieces carry no title, so dropping the trailing ones changes no title. */
  lemma {:induction false} DropTrailingEmptyTitles(parts: seq<string>)
    ensures SegmentTitles(DropTrailingEmpty(parts)) == SegmentTitles(parts)
    decreases |parts|
  {
    if parts != [] && parts[|parts| - 1] == "" {
      DropTrailingEmptyTitles(parts[..|parts| - 1]);
    }
  }

  /** Java's split and the plain split yield the same titles. */
  lemma JavaSplitTitles(s: string)
    ensures SegmentTitles(JavaSplit(s)) == SegmentTitles(SplitAll(s))
  {
    if ';' in s {
      DropTrailingEmptyTitles(SplitAll(s));
    } else {
      SplitAllPrefix(s, "");
      assert s + "" == s;
    }
  }

  /** The titles found in one metadata block. */
  function BlockTitles(block: seq<byte>): (titles: seq<string>)
    ensures "" !in titles
  {
    SegmentTitles(JavaSplit(BlockText(block)))
  }

  /** Text joined from ';'-free pieces carries exactly the pieces' titles. */
  lemma TitlesOfJoin(parts: seq<string>)
    requires |parts| >= 1
    requires forall i :: 0 <= i < |parts| ==> ';' !in parts[i]
    ensures SegmentTitles(JavaSplit(Join(parts))) == SegmentTitles(parts)
  {
    SplitAllJoin(parts);
    JavaSplitTitles(Join(parts));
  }

  /**
   * Metadata a server sends as StreamTitle='t'; followed by other key='value'; pairs that are not
   * titles yields exactly the title `t`, when `t` is non-empty and holds no ';'.
   */
  lemma ServerTitleExtracted(t: string, others: seq<string>)
    requires t != "" && ';' !in t
    requires forall i :: 0 <= i < |others| ==> ';' !in others[i] && SegmentTitle(others[i]).None?
    ensures SegmentTitles(JavaSplit(Join([TitleHeader + t + "'"] + (others + [""])))) == [t]
  {
    var seg := TitleHeader + t + "'";
    var rest := others + [""];
    TitleSegmentHasNoSemicolon(t);
    NoSemicolonInParts(seg, others, rest);
    TitlesOfJoin([seg] + rest);
    NoTitlesBeforeEmpty(others);
    TitleThenNoTitles(seg, t, rest);
  }

  lemma TitleSegmentHasNoSemicolon(t: string)
    requires ';' !in t
    ensures ';' !in TitleHeader + t + "'"
  {
    assert forall i :: 0 <= i < |TitleHeader| ==> TitleHeader[i] != ';';
    assert TitleHeader + t + "'" == TitleHeader + (t + "'");
  }

  lemma NoSemicolonInParts(seg: string, others: seq<string>, rest: seq<string>)
    requires ';' !in seg && rest == others + [""]
    requires forall i :: 0 <= i < |others| ==> ';' !in others[i]
    ensures forall i :: 0 <= i < |[seg] + rest| ==> ';' !in ([seg] + rest)[i]
  {
    forall i | 0 <= i < |[seg] + rest|
      ensures ';' !in ([seg] + rest)[i]
    {
      if 0 < i < |rest| {
        assert ([seg] + rest)[i] == others[i - 1];
      }
    }
  }

  lemma NoTitlesBeforeEmpty(others: seq<string>)
    requires forall i :: 0 <= i < |others| ==> SegmentTitle(others[i]).None?
    ensures SegmentTitles(others + [""]) == []
  {
    SegmentTitlesAppend(others, [""]);
    NoTitles(others);
    assert [""][..0] == [];
  }

  lemma TitleThenNoTitles(seg: string, t: string, rest: seq<string>)
    requires seg == TitleHeader + t + "'" && t != ""
    requires SegmentTitles(rest) == []
    ensures SegmentTitles([seg] + rest) == [t]
  {
    SegmentTitlesAppend([seg], rest);
    SegmentTitleRoundTrip(t);
    assert [seg][..0] == [];
  }

  lemma {:induction false} NoTitles(segments: seq<string>)
    requires forall i :: 0 <= i < |segments| ==> SegmentTitle(segments[i]).None?
    ensures SegmentTitles(segments) == []
    decreases |segments|
  {
    if segments != [] {
      NoTitles(segments[..|segments| - 1]);
    }
  }

  /**
   * A title that itself contains ';' is cut at the first ';' and then loses one more character,
   * taken for the closing quote: StreamTitle='AC;DC'; yields the title "A".
   */
  lemma SemicolonInTitleCuts()
    ensures SegmentTitles(JavaSplit("StreamTitle='AC;DC';")) == ["A"]
  {
    var parts := ["StreamTitle='AC", "DC'", ""];
    CutTitleParts();
    TitlesOfJoin(parts);
    CutTitleSegments();
  }

  lemma CutTitleParts()
    ensures Join(["StreamTitle='AC", "DC'", ""]) == "StreamTitle='AC;DC';"
    ensures forall i :: 0 <= i < 3 ==> ';' !in ["StreamTitle='AC", "DC'", ""][i]
  {
    var parts := ["StreamTitle='AC", "DC'", ""];
    assert Join(parts[2..]) == "";
    assert Join(parts[1..]) == "DC';";
  }

  lemma CutTitleSegments()
    ensures SegmentTitles(["StreamTitle='AC", "DC'", ""]) == ["A"]
  {
    var parts := ["StreamTitle='AC", "DC'", ""];
    assert SegmentTitle(parts[0]) == Some("A") by {
      assert |parts[0]| == 15;
      assert parts[0][..|TitleHeader|] == TitleHeader;
      assert parts[0][|TitleHeader|..|parts[0]| - 1] == "A";
    }
    assert SegmentTitle(parts[1]).None?;
    assert parts[..2][..1] == parts[..1];
    assert parts[..1][..0] == [];
  }
}
