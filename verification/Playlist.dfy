/** The rolling HLS playlist (RFC 8216): what the daemon prints for a snapshot of its buffer. */
module Playlists {
  import opened Wrappers
  import opened Text
  import opened SegmentLog
  import opened RingBuffers

  const MEDIA_SEQUENCE_TAG := "#EXT-X-MEDIA-SEQUENCE:"
  const EXTINF_TAG := "#EXTINF:"

  /** A number of seconds as a whole number of microseconds: nearest, halves to even. */
  function Micros(d: real): nat
    requires 0.0 <= d
  {
    NearestEven(d * 1000000.0)
  }

  function Seconds(micros: nat): real {
    micros as real / 1000000.0
  }

  /** A duration printed with six decimals. */
  function SixDecimals(micros: nat): string {
    Numeral(micros / 1000000) + "." + Padded(micros % 1000000, 6)
  }

  datatype Entry = Entry(micros: nat, uri: string)

  /** The shape of a media playlist: `header` and `extra` lines carry nothing the parser reads. */
  datatype Document = Document(header: seq<string>, base: nat, extra: seq<string>, entries: seq<Entry>)

  function MediaSequenceLine(base: nat): string {
    MEDIA_SEQUENCE_TAG + Numeral(base)
  }

  function ExtInfLine(micros: nat): string {
    EXTINF_TAG + SixDecimals(micros) + ","
  }

  function EntryLines(entries: seq<Entry>): seq<string> {
    if entries == [] then []
    else
      var last := entries[|entries| - 1];
      EntryLines(entries[..|entries| - 1]) + [ExtInfLine(last.micros), last.uri]
  }

  function Lines(doc: Document): seq<string> {
    doc.header + [MediaSequenceLine(doc.base)] + doc.extra + EntryLines(doc.entries)
  }

  function TextOf(lines: seq<string>): string {
    if lines == [] then "" else TextOf(lines[..|lines| - 1]) + lines[|lines| - 1] + "\n"
  }

  // ----- the printer -----

  /** The duration the printer lists for a segment: the measured one if there is one. */
  function ListedMicros(x: Segment): nat {
    Micros(if x.duration > 0.0 then x.duration else SEGMENT_SECONDS as real)
  }

  function ListedEntry(x: Segment): Entry {
    Entry(ListedMicros(x), "seg_" + Numeral(x.seqNo) + ".ts")
  }

  function ListedEntries(segs: seq<Segment>): seq<Entry> {
    seq(|segs|, i requires 0 <= i < |segs| => ListedEntry(segs[i]))
  }

  const HEADER := [
    "#EXTM3U",
    "#EXT-X-VERSION:3",
    "#EXT-X-PLAYLIST-TYPE:EVENT",
    "#EXT-X-START:TIME-OFFSET=0,PRECISE=YES",
    "#EXT-X-TARGETDURATION:2"
  ]

  function SnapshotDocument(base: nat, segs: seq<Segment>, discontinuity: bool): Document {
    Document(HEADER, base, if discontinuity then ["#EXT-X-DISCONTINUITY"] else [], ListedEntries(segs))
  }

  /** The number in a segment request path: what stands between `/seg_` and `.ts`. */
  function RequestedSeq(path: string): Result<nat>
    requires |"/seg_"| + |".ts"| <= |path|
  {
    ParseUint32(path[|"/seg_"|..|path| - |".ts"|])
  }

  /** The pair of closures that share the ring buffer and the pending-discontinuity flag. */
  class PlaylistHandler {
    const rb: RingBuffer
    var pendingDiscont: bool

    constructor (rb: RingBuffer)
      ensures this.rb == rb && !pendingDiscont
    {
      this.rb := rb;
      pendingDiscont := false;
    }

    method TriggerDiscontinuity()
      modifies this
      ensures pendingDiscont
    {
      pendingDiscont := true;
    }

    /** Appends the two lines of each segment to the text of `lines`. */
    static method ListSegments(head: string, ghost lines: seq<string>, segs: seq<Segment>) returns (text: string)
      requires head == TextOf(lines)
      ensures text == TextOf(lines + EntryLines(ListedEntries(segs)))
    {
      text := head;
      ghost var entries := ListedEntries(segs);
      assert lines + EntryLines(entries[..0]) == lines;
      for i := 0 to |segs|
        invariant text == TextOf(lines + EntryLines(entries[..i]))
      {
        var durationToUse: real := SEGMENT_SECONDS as real;
        if segs[i].duration > 0.0 {
          durationToUse := segs[i].duration;
        }
        TextOfEntry(lines, entries, i);
        text := text + (EXTINF_TAG + SixDecimals(Micros(durationToUse)) + "," + "\n");
        text := text + ("seg_" + Numeral(segs[i].seqNo) + ".ts" + "\n");
      }
      assert entries[..|segs|] == entries;
    }

    /** Prints the current snapshot; a pending discontinuity is announced once. */
    method ServePlaylist() returns (text: string)
      requires rb.Valid()
      modifies this
      ensures !pendingDiscont
      ensures forall base, segs :: IsFirstRun(rb.View(), base, segs)
                ==> text == TextOf(Lines(SnapshotDocument(base, segs, old(pendingDiscont))))
    {
      var base, segs := rb.Snapshot();
      ghost var doc := SnapshotDocument(base, segs, pendingDiscont);
      text := "" + ("#EXTM3U" + "\n");
      text := text + ("#EXT-X-VERSION:3" + "\n");
      text := text + ("#EXT-X-PLAYLIST-TYPE:EVENT" + "\n");
      text := text + ("#EXT-X-START:TIME-OFFSET=0,PRECISE=YES" + "\n");
      text := text + ("#EXT-X-TARGETDURATION:" + Numeral(SEGMENT_SECONDS) + "\n");
      text := text + (MEDIA_SEQUENCE_TAG + Numeral(base) + "\n");
      assert text == TextOf(HEADER + [MediaSequenceLine(base)]) by { TextOfHead(base); }
      if pendingDiscont {
        AddLine(text, HEADER + [MediaSequenceLine(base)], "#EXT-X-DISCONTINUITY");
        text := text + ("#EXT-X-DISCONTINUITY" + "\n");
        pendingDiscont := false;
      }
      ghost var lines := doc.header + [MediaSequenceLine(doc.base)] + doc.extra;
      assert doc.extra == [] ==> lines == HEADER + [MediaSequenceLine(base)];
      assert text == TextOf(lines);
      text := ListSegments(text, lines, segs);
      forall b, u | IsFirstRun(rb.View(), b, u) ensures b == base && u == segs {
        FirstRunIsUnique(rb.View(), b, u, base, segs);
      }
    }

    /** Serves the payload of a live segment; anything else is not found. */
    method ServeSegment(path: string) returns (data: Option<seq<byte>>)
      requires rb.Valid() && |"/seg_"| + |".ts"| <= |path|
      ensures data.Some? <==> RequestedSeq(path).Ok? && RequestedSeq(path).value in rb.View().live
      ensures data.Some? ==> data.value == rb.View().live[RequestedSeq(path).value].data
    {
      var s := RequestedSeq(path);
      if s.Err? {
        return None;
      }
      data := rb.Get(s.value);
    }
  }

  lemma AddLine(text: string, lines: seq<string>, line: string)
    requires text == TextOf(lines)
    ensures text + (line + "\n") == TextOf(lines + [line])
  {
    assert (lines + [line])[..|lines|] == lines;
  }

  lemma TextOfHead(base: nat)
    ensures "" + ("#EXTM3U" + "\n") + ("#EXT-X-VERSION:3" + "\n") + ("#EXT-X-PLAYLIST-TYPE:EVENT" + "\n")
            + ("#EXT-X-START:TIME-OFFSET=0,PRECISE=YES" + "\n")
            + ("#EXT-X-TARGETDURATION:" + Numeral(SEGMENT_SECONDS) + "\n")
            + (MEDIA_SEQUENCE_TAG + Numeral(base) + "\n")
         == TextOf(HEADER + [MediaSequenceLine(base)])
  {
    var t0 := "" + (HEADER[0] + "\n");
    var t1 := t0 + (HEADER[1] + "\n");
    var t2 := t1 + (HEADER[2] + "\n");
    var t3 := t2 + (HEADER[3] + "\n");
    var t4 := t3 + (HEADER[4] + "\n");
    var l0: seq<string> := [];
    var l1 := l0 + [HEADER[0]];
    var l2 := l1 + [HEADER[1]];
    var l3 := l2 + [HEADER[2]];
    var l4 := l3 + [HEADER[3]];
    AddLine("", l0, HEADER[0]);
    AddLine(t0, l1, HEADER[1]);
    AddLine(t1, l2, HEADER[2]);
    AddLine(t2, l3, HEADER[3]);
    AddLine(t3, l4, HEADER[4]);
    assert l4 + [HEADER[4]] == HEADER;
    AddLine(t4, HEADER, MediaSequenceLine(base));
    assert "#EXT-X-TARGETDURATION:" + Numeral(SEGMENT_SECONDS) == HEADER[4];
  }

  lemma TextOfEntry(lines: seq<string>, entries: seq<Entry>, i: nat)
    requires i < |entries|
    ensures TextOf(lines + EntryLines(entries[..i + 1]))
         == TextOf(lines + EntryLines(entries[..i])) + (ExtInfLine(entries[i].micros) + "\n") + (entries[i].uri + "\n")
  {
    var before := lines + EntryLines(entries[..i]);
    AddLine(TextOf(before), before, ExtInfLine(entries[i].micros));
    AddLine(TextOf(before + [ExtInfLine(entries[i].micros)]), before + [ExtInfLine(entries[i].micros)], entries[i].uri);
    assert entries[..i + 1][..i] == entries[..i];
    assert lines + EntryLines(entries[..i + 1]) == before + [ExtInfLine(entries[i].micros)] + [entries[i].uri];
  }

  /** Listing a duration costs at most half a microsecond, and a tie is listed as an even number. */
  lemma MicrosIsNearest(d: real)
    requires 0.0 <= d
    ensures -0.0000005 <= Seconds(Micros(d)) - d <= 0.0000005
    ensures Seconds(Micros(d)) - d == 0.0000005 || Seconds(Micros(d)) - d == -0.0000005 ==> Micros(d) % 2 == 0
  {
    NearestIsHalfAway(d * 1000000.0);
    assert -0.5 <= Micros(d) as real - d * 1000000.0 <= 0.5;
  }

  /**
   A segment is listed with its measured duration, to the nearest microsecond, and with the nominal
   two seconds if it was not measured.
   */
  lemma ListedDurationIsMeasured(x: Segment)
    ensures x.duration > 0.0 ==> -0.0000005 <= Seconds(ListedMicros(x)) - x.duration <= 0.0000005
    ensures x.duration <= 0.0 ==> Seconds(ListedMicros(x)) == 2.0
  {
    if x.duration > 0.0 {
      MicrosIsNearest(x.duration);
    }
  }

  /**
   The shape of a printed playlist: it opens as RFC 8216 demands, gives the number of its first
   segment, announces a discontinuity before the segments exactly if there is one, and then lists
   for each segment its duration and its URI.
   */
  lemma PrintedLines(base: nat, segs: seq<Segment>, discontinuity: bool)
    ensures var lines := Lines(SnapshotDocument(base, segs, discontinuity)); var n := if discontinuity then 7 else 6;
      && |lines| == n + 2 * |segs|
      && lines[0] == "#EXTM3U" && lines[1] == "#EXT-X-VERSION:3"
      && lines[2] == "#EXT-X-PLAYLIST-TYPE:EVENT" && lines[3] == "#EXT-X-START:TIME-OFFSET=0,PRECISE=YES"
      && lines[4] == "#EXT-X-TARGETDURATION:2" && lines[5] == "#EXT-X-MEDIA-SEQUENCE:" + Numeral(base)
      && (discontinuity ==> lines[6] == "#EXT-X-DISCONTINUITY")
      && forall i :: 0 <= i < |segs| ==>
        && lines[n + 2 * i] == "#EXTINF:" + SixDecimals(ListedMicros(segs[i])) + ","
        && lines[n + 2 * i + 1] == "seg_" + Numeral(segs[i].seqNo) + ".ts"
  {
    var doc := SnapshotDocument(base, segs, discontinuity);
    PrintedHead(base, discontinuity, EntryLines(doc.entries));
    PrintedEntries(doc.header + [MediaSequenceLine(doc.base)] + doc.extra, segs);
  }

  lemma PrintedEntries(head: seq<string>, segs: seq<Segment>)
    ensures var lines := head + EntryLines(ListedEntries(segs));
      && |lines| == |head| + 2 * |segs|
      && forall i :: 0 <= i < |segs| ==>
        && lines[|head| + 2 * i] == "#EXTINF:" + SixDecimals(ListedMicros(segs[i])) + ","
        && lines[|head| + 2 * i + 1] == "seg_" + Numeral(segs[i].seqNo) + ".ts"
  {
    var entries := ListedEntries(segs);
    EntryLinesPointwise(entries);
    forall i | 0 <= i < |segs|
      ensures EntryLines(entries)[2 * i] == "#EXTINF:" + SixDecimals(ListedMicros(segs[i])) + ","
      ensures EntryLines(entries)[2 * i + 1] == "seg_" + Numeral(segs[i].seqNo) + ".ts"
    {
      assert entries[i] == ListedEntry(segs[i]);
    }
  }

  lemma PrintedHead(base: nat, discontinuity: bool, rest: seq<string>)
    ensures var lines := HEADER + [MediaSequenceLine(base)] + (if discontinuity then ["#EXT-X-DISCONTINUITY"] else []) + rest;
      && |lines| == (if discontinuity then 7 else 6) + |rest|
      && lines[0] == "#EXTM3U" && lines[1] == "#EXT-X-VERSION:3"
      && lines[2] == "#EXT-X-PLAYLIST-TYPE:EVENT" && lines[3] == "#EXT-X-START:TIME-OFFSET=0,PRECISE=YES"
      && lines[4] == "#EXT-X-TARGETDURATION:2" && lines[5] == "#EXT-X-MEDIA-SEQUENCE:" + Numeral(base)
      && (discontinuity ==> lines[6] == "#EXT-X-DISCONTINUITY")
  {
    assert |HEADER| == 5;
  }

  lemma {:induction false} EntryLinesPointwise(entries: seq<Entry>)
    ensures |EntryLines(entries)| == 2 * |entries|
    ensures forall i :: 0 <= i < |entries| ==>
      EntryLines(entries)[2 * i] == ExtInfLine(entries[i].micros) && EntryLines(entries)[2 * i + 1] == entries[i].uri
  {
    if entries != [] {
      EntryLinesPointwise(entries[..|entries| - 1]);
    }
  }
}
