/** The playlist monitor: a line scanner that recovers `sequence number -> duration`. */
module M3U8Monitors {
  import opened Wrappers
  import opened Text
  import opened Playlists

  // ----- the three line patterns -----

  predicate IsNumberChar(c: char) {
    IsDigit(c) || c == '.'
  }

  predicate NotBreak(c: char) {
    c != '\n'
  }

  /** `^#EXT-X-MEDIA-SEQUENCE:(\d+)`: the captured digits. */
  function MatchMediaSequence(line: string): Option<string> {
    if MEDIA_SEQUENCE_TAG <= line then
      var rest := line[|MEDIA_SEQUENCE_TAG|..];
      var n := Span(rest, IsDigit);
      if n == 0 then None else Some(rest[..n])
    else None
  }

  /** `^#EXTINF:([0-9\.]+),`: the captured digits and dots. */
  function MatchExtInf(line: string): Option<string> {
    if EXTINF_TAG <= line then
      var rest := line[|EXTINF_TAG|..];
      var n := Span(rest, IsNumberChar);
      if n == 0 || n == |rest| || rest[n] != ',' then None else Some(rest[..n])
    else None
  }

  /** `^[^#]+` on a line without blank ends. */
  predicate MatchSegmentFile(line: string) {
    line != "" && line[0] != '#'
  }

  // ----- numerals -----

  /** Digits with at most one dot and at least one digit; the exact value, not the nearest double. */
  function ParseFloat(s: string): Result<real> {
    var n := Span(s, IsDigit);
    if n == |s| then
      if n == 0 then Err else Ok(NumeralValue(s) as real)
    else if s[n] != '.' then Err
    else
      var fraction := s[n + 1..];
      if Span(fraction, IsDigit) != |fraction| || n + |fraction| == 0 then Err
      else
        assert forall i :: 0 <= i < |s[..n] + fraction| ==> IsDigit((s[..n] + fraction)[i]);
        Ok(NumeralValue(s[..n] + fraction) as real / Pow10(|fraction|) as real)
  }

  // ----- the scan -----

  /** The scanner's variables: pending duration (-1 if none), media base, index in the file, findings. */
  datatype Scan = Scan(pending: real, base: nat, index: nat, found: map<nat, real>)

  function StartScan(ffmpegStartNum: nat): Scan {
    Scan(-1.0, ffmpegStartNum, 0, map[])
  }

  /** What one trimmed line does to the scanner. */
  function ScanLine(st: Scan, line: string): Scan {
    if MatchMediaSequence(line).Some? then
      match ParseUint32(MatchMediaSequence(line).value)
      case Ok(v) => st.(base := v, index := 0)
      case Err => st
    else if MatchExtInf(line).Some? then
      match ParseFloat(MatchExtInf(line).value)
      case Ok(d) => st.(pending := d)
      case Err => st
    else if MatchSegmentFile(line) && st.pending != -1.0 then
      st.(pending := -1.0, index := st.index + 1,
          found := st.found[(st.base + st.index) % TWO_TO_THE_32 := st.pending])
    else st
  }

  function ScanLines(st: Scan, lines: seq<string>): Scan {
    if lines == [] then st else ScanLine(ScanLines(st, lines[..|lines| - 1]), lines[|lines| - 1])
  }

  /** Reads to the next line break, or to the end of the text, which is the last line. */
  function ScanText(st: Scan, text: string): Scan
    decreases |text|
  {
    var n := Span(text, NotBreak);
    if n == |text| then ScanLine(st, Trim(text))
    else ScanText(ScanLine(st, Trim(text[..n + 1])), text[n + 1..])
  }

  class M3U8Monitor {
    const ffmpegStartNum: nat
    var segmentDurations: map<nat, real>
    var currentMediaBase: nat

    constructor (ffmpegStartNum: nat)
      ensures this.ffmpegStartNum == ffmpegStartNum == currentMediaBase && segmentDurations == map[]
    {
      this.ffmpegStartNum := ffmpegStartNum;
      segmentDurations := map[];
      currentMediaBase := ffmpegStartNum;
    }

    /** The three-way branch on one trimmed line. */
    static method HandleLine(line: string, duration0: real, base0: nat, index0: nat, found0: map<nat, real>)
      returns (duration: real, base: nat, index: nat, found: map<nat, real>)
      ensures Scan(duration, base, index, found) == ScanLine(Scan(duration0, base0, index0, found0), line)
    {
      duration, base, index, found := duration0, base0, index0, found0;
      if MatchMediaSequence(line).Some? {
        var seqVal := ParseUint32(MatchMediaSequence(line).value);
        if seqVal.Ok? {
          base, index := seqVal.value, 0;
        }
      } else if MatchExtInf(line).Some? {
        var parsed := ParseFloat(MatchExtInf(line).value);
        if parsed.Ok? {
          duration := parsed.value;
        }
      } else if MatchSegmentFile(line) && duration != -1.0 {
        var globalSegmentSeq := (base + index) % TWO_TO_THE_32;
        found := found[globalSegmentSeq := duration];
        duration := -1.0;
        index := index + 1;
      }
    }

    /** One poll: scans the text the file holds now and merges the findings. */
    method ParsePlaylist(text: string)
      modifies this
      ensures segmentDurations == old(segmentDurations) + ScanText(StartScan(ffmpegStartNum), text).found
      ensures currentMediaBase == ScanText(StartScan(ffmpegStartNum), text).base
    {
      var currentExtInfDuration: real := -1.0;
      var latestMediaBase: nat := ffmpegStartNum;
      var segmentIndexInPlaylist: nat := 0;
      var tempDurations: map<nat, real> := map[];
      var rest := text;
      var eof := false;
      ghost var st := StartScan(ffmpegStartNum);
      while !eof
        invariant st == Scan(currentExtInfDuration, latestMediaBase, segmentIndexInPlaylist, tempDurations)
        invariant if eof then st == ScanText(StartScan(ffmpegStartNum), text)
                  else ScanText(st, rest) == ScanText(StartScan(ffmpegStartNum), text)
        invariant segmentDurations == old(segmentDurations)
        decreases !eof, |rest|
      {
        var n := Span(rest, NotBreak);
        var line := rest;
        if n == |rest| {
          eof := true;
        } else {
          line, rest := rest[..n + 1], rest[n + 1..];
        }
        line := Trim(line);
        st := ScanLine(st, line);
        currentExtInfDuration, latestMediaBase, segmentIndexInPlaylist, tempDurations :=
          HandleLine(line, currentExtInfDuration, latestMediaBase, segmentIndexInPlaylist, tempDurations);
      }
      Merge(tempDurations);
      currentMediaBase := latestMediaBase;
    }

    /** Adds the findings of one scan; nothing already known is dropped. */
    method Merge(tempDurations: map<nat, real>)
      modifies `segmentDurations
      ensures segmentDurations == old(segmentDurations) + tempDurations
    {
      var keys := tempDurations.Keys;
      while keys != {}
        invariant keys <= tempDurations.Keys
        invariant segmentDurations.Keys == old(segmentDurations).Keys + (tempDurations.Keys - keys)
        invariant forall k :: k in segmentDurations ==>
          segmentDurations[k] == if k in tempDurations && k !in keys then tempDurations[k] else old(segmentDurations)[k]
        decreases |keys|
      {
        var k :| k in keys;
        segmentDurations := segmentDurations[k := tempDurations[k]];
        keys := keys - {k};
      }
    }

    method GetSegmentDuration(globalSeqNum: nat) returns (duration: real, found: bool)
      ensures found <==> globalSeqNum in segmentDurations
      ensures duration == if found then segmentDurations[globalSeqNum] else 0.0
    {
      if globalSeqNum in segmentDurations {
        return segmentDurations[globalSeqNum], true;
      }
      return 0.0, false;
    }
  }
}
