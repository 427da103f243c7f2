/** Printing and parsing are inverse, and parsing an unfinished file is harmless. */
module PlaylistRoundTrip {
  import opened Wrappers
  import opened Text
  import opened SegmentLog
  import opened Playlists
  import opened M3U8Monitors

  // ----- documents -----

  /** One line of text with visible ends. */
  ghost predicate IsNeat(line: string) {
    line != "" && !IsSpace(line[0]) && !IsSpace(line[|line| - 1]) && '\n' !in line
  }

  /** A tag line the scanner ignores. */
  ghost predicate IsInert(line: string) {
    IsNeat(line) && line[0] == '#' && !(MEDIA_SEQUENCE_TAG <= line) && !(EXTINF_TAG <= line)
  }

  ghost predicate IsDocument(doc: Document) {
    && (forall i :: 0 <= i < |doc.header| ==> IsInert(doc.header[i]))
    && (forall i :: 0 <= i < |doc.extra| ==> IsInert(doc.extra[i]))
    && (forall i :: 0 <= i < |doc.entries| ==> IsNeat(doc.entries[i].uri) && doc.entries[i].uri[0] != '#')
    && doc.base < TWO_TO_THE_32 && doc.base + |doc.entries| <= TWO_TO_THE_32
  }

  ghost function DurationAt(doc: Document, s: nat): real
    requires doc.base <= s < doc.base + |doc.entries|
  {
    Seconds(doc.entries[s - doc.base].micros)
  }

  /** The durations of the first `n` entries, by implied sequence number. */
  ghost function Durations(doc: Document, n: nat): map<nat, real>
    requires n <= |doc.entries|
  {
    map s | doc.base <= s < doc.base + n :: DurationAt(doc, s)
  }

  // ----- the lines the printer writes are neat, and mean what they say -----

  lemma SpanAll(s: string, p: char -> bool)
    requires forall i :: 0 <= i < |s| ==> p(s[i])
    ensures Span(s, p) == |s|
  {
  }

  lemma DigitsAreNeat(s: string)
    requires AllDigits(s)
    ensures '\n' !in s && forall i :: 0 <= i < |s| ==> !IsSpace(s[i])
  {
  }

  lemma NumberCharsAreNeat(s: string)
    requires forall i :: 0 <= i < |s| ==> IsNumberChar(s[i])
    ensures '\n' !in s
  {
  }

  lemma MediaSequenceLineIsRead(base: nat, st: Scan)
    requires base < TWO_TO_THE_32
    ensures IsNeat(MediaSequenceLine(base)) && MediaSequenceLine(base)[0] == '#'
    ensures ScanLine(st, MediaSequenceLine(base)) == st.(base := base, index := 0)
  {
    var line, digits := MediaSequenceLine(base), Numeral(base);
    NumeralReadsBack(base);
    DigitsAreNeat(digits);
    assert line[|MEDIA_SEQUENCE_TAG|..] == digits;
    SpanAll(digits, IsDigit);
    assert digits[..|digits|] == digits;
    assert line[|line| - 1] == digits[|digits| - 1];
  }

  /** A numeral with a dot in it parses to the number without the dot, scaled down. */
  lemma DottedParses(whole: string, fraction: string)
    requires AllDigits(whole) && AllDigits(fraction) && whole != ""
    ensures AllDigits(whole + fraction)
    ensures ParseFloat(whole + "." + fraction) == Ok(NumeralValue(whole + fraction) as real / Pow10(|fraction|) as real)
  {
    ConcatenatedDigits(whole, fraction);
    var s := whole + "." + fraction;
    assert s[|whole|] == '.';
    assert forall i :: 0 <= i < |whole| ==> s[i] == whole[i];
    SpanIs(s, IsDigit, |whole|);
    assert s[|whole| + 1..] == fraction && s[..|whole|] == whole;
    SpanAll(fraction, IsDigit);
  }

  /** Whole seconds and six more digits together spell the microseconds. */
  lemma SixDecimalsDigits(micros: nat)
    ensures var whole, fraction := Numeral(micros / 1000000), Padded(micros % 1000000, 6);
      && whole != "" && AllDigits(whole) && AllDigits(fraction) && |fraction| == 6
      && AllDigits(whole + fraction) && NumeralValue(whole + fraction) == micros
  {
    SixthPower();
    NumeralReadsBack(micros / 1000000);
    PaddedReadsBack(micros % 1000000, 6);
    ConcatenatedDigits(Numeral(micros / 1000000), Padded(micros % 1000000, 6));
  }

  /** Digits around a dot, six of them after it, read as that many microseconds. */
  lemma DottedIsSeconds(whole: string, fraction: string, micros: nat)
    requires whole != "" && AllDigits(whole) && AllDigits(fraction) && |fraction| == 6
    requires AllDigits(whole + fraction) && NumeralValue(whole + fraction) == micros
    ensures var s := whole + "." + fraction;
      && (forall i :: 0 <= i < |s| ==> IsNumberChar(s[i]))
      && ParseFloat(s) == Ok(Seconds(micros))
  {
    DottedParses(whole, fraction);
    SixthPower();
    SameRatio(micros, Pow10(|fraction|));
    DottedIsNumber(whole, fraction);
  }

  lemma SameRatio(micros: nat, p: nat)
    requires p == 1000000
    ensures micros as real / p as real == Seconds(micros)
  {
  }

  lemma DottedIsNumber(whole: string, fraction: string)
    requires AllDigits(whole) && AllDigits(fraction)
    ensures var s := whole + "." + fraction; forall i :: 0 <= i < |s| ==> IsNumberChar(s[i])
  {
  }

  lemma SixthPower()
    ensures Pow10(6) == 1000000
  {
    assert Pow10(3) == 1000;
  }

  lemma SixDecimalsReadsBack(micros: nat)
    ensures SixDecimals(micros) != "" && forall i :: 0 <= i < |SixDecimals(micros)| ==> IsNumberChar(SixDecimals(micros)[i])
    ensures ParseFloat(SixDecimals(micros)) == Ok(Seconds(micros))
  {
    SixDecimalsDigits(micros);
    DottedIsSeconds(Numeral(micros / 1000000), Padded(micros % 1000000, 6), micros);
  }

  lemma ExtInfLineIsRead(micros: nat, st: Scan)
    ensures IsNeat(ExtInfLine(micros)) && ExtInfLine(micros)[0] == '#'
    ensures ScanLine(st, ExtInfLine(micros)) == st.(pending := Seconds(micros))
  {
    var line, number := ExtInfLine(micros), SixDecimals(micros);
    SixDecimalsReadsBack(micros);
    assert EXTINF_TAG[4] != MEDIA_SEQUENCE_TAG[4] && line[4] == EXTINF_TAG[4];
    assert !(MEDIA_SEQUENCE_TAG <= line);
    var rest := line[|EXTINF_TAG|..];
    assert rest == number + ",";
    SpanIs(rest, IsNumberChar, |number|);
    assert rest[..|number|] == number;
    assert line[|line| - 1] == ',';
    NumberCharsAreNeat(number);
  }

  lemma InertLineIsIgnored(line: string, st: Scan)
    requires IsInert(line)
    ensures ScanLine(st, line) == st
  {
  }

  lemma UriLineIsRead(doc: Document, j: nat, st: Scan)
    requires IsDocument(doc) && j < |doc.entries|
    requires st == Scan(Seconds(doc.entries[j].micros), doc.base, j, Durations(doc, j))
    ensures ScanLine(st, doc.entries[j].uri) == Scan(-1.0, doc.base, j + 1, Durations(doc, j + 1))
  {
    var uri := doc.entries[j].uri;
    assert MEDIA_SEQUENCE_TAG[0] == '#' && EXTINF_TAG[0] == '#';
    assert (doc.base + j) % TWO_TO_THE_32 == doc.base + j;
    assert Durations(doc, j)[doc.base + j := Seconds(doc.entries[j].micros)] == Durations(doc, j + 1);
  }

  // ----- from text to lines -----

  ghost predicate AllNeat(lines: seq<string>) {
    forall i :: 0 <= i < |lines| ==> IsNeat(lines[i])
  }

  lemma ScanOneLine(st: Scan, line: string, rest: string)
    requires IsNeat(line)
    ensures ScanText(st, line + "\n" + rest) == ScanText(ScanLine(st, line), rest)
  {
    var text := line + "\n" + rest;
    assert text[|line|] == '\n';
    assert forall i :: 0 <= i < |line| ==> text[i] == line[i];
    SpanIs(text, NotBreak, |line|);
    assert text[..|line| + 1] == line + "\n" && text[|line| + 1..] == rest;
    TrimLineBreak(line);
  }

  lemma {:induction false} ScanNeatLines(st: Scan, lines: seq<string>, rest: string)
    requires AllNeat(lines)
    ensures ScanText(st, TextOf(lines) + rest) == ScanText(ScanLines(st, lines), rest)
  {
    if lines == [] {
      assert TextOf(lines) + rest == rest;
    } else {
      var front, last := lines[..|lines| - 1], lines[|lines| - 1];
      assert TextOf(lines) + rest == TextOf(front) + (last + "\n" + rest);
      ScanNeatLines(st, front, last + "\n" + rest);
      ScanOneLine(ScanLines(st, front), last, rest);
    }
  }

  lemma ScanLastLine(st: Scan, q: string)
    requires '\n' !in q
    ensures ScanText(st, q) == ScanLine(st, Trim(q))
  {
    SpanAll(q, NotBreak);
  }

  // ----- the state after the first k lines -----

  lemma ScanAppend(st: Scan, lines: seq<string>, line: string)
    ensures ScanLines(st, lines + [line]) == ScanLine(ScanLines(st, lines), line)
  {
    assert (lines + [line])[..|lines|] == lines;
  }

  lemma {:induction false} ScanConcat(st: Scan, g: seq<string>, h: seq<string>)
    ensures ScanLines(st, g + h) == ScanLines(ScanLines(st, g), h)
  {
    if h == [] {
      assert g + h == g;
    } else {
      var front, last := h[..|h| - 1], h[|h| - 1];
      ScanConcat(st, g, front);
      assert g + h == (g + front) + [last];
      ScanAppend(st, g + front, last);
    }
  }

  lemma {:induction false} ScanInert(st: Scan, lines: seq<string>)
    requires forall i :: 0 <= i < |lines| ==> IsInert(lines[i])
    ensures ScanLines(st, lines) == st && AllNeat(lines)
  {
    if lines != [] {
      ScanInert(st, lines[..|lines| - 1]);
      InertLineIsIgnored(lines[|lines| - 1], st);
    }
  }

  lemma {:induction false} ScanEntries(doc: Document, n: nat, st: Scan)
    requires IsDocument(doc) && n <= |doc.entries| && st == Scan(-1.0, doc.base, 0, map[])
    ensures ScanLines(st, EntryLines(doc.entries[..n])) == Scan(-1.0, doc.base, n, Durations(doc, n))
  {
    if n == 0 {
      assert Durations(doc, 0) == map[];
    } else {
      assert doc.entries[..n][..n - 1] == doc.entries[..n - 1];
      ScanEntries(doc, n - 1, st);
      ScanOneEntry(doc, n - 1, st, EntryLines(doc.entries[..n - 1]));
    }
  }

  lemma ScanOneEntry(doc: Document, j: nat, st: Scan, front: seq<string>)
    requires IsDocument(doc) && j < |doc.entries|
    requires ScanLines(st, front) == Scan(-1.0, doc.base, j, Durations(doc, j))
    ensures ScanLines(st, front + [ExtInfLine(doc.entries[j].micros), doc.entries[j].uri])
         == Scan(-1.0, doc.base, j + 1, Durations(doc, j + 1))
  {
    var ext, uri := ExtInfLine(doc.entries[j].micros), doc.entries[j].uri;
    var before := ScanLines(st, front);
    assert front + [ext, uri] == front + [ext] + [uri];
    ScanAppend(st, front, ext);
    ScanAppend(st, front + [ext], uri);
    ExtInfLineIsRead(doc.entries[j].micros, before);
    UriLineIsRead(doc, j, before.(pending := Seconds(doc.entries[j].micros)));
  }

  lemma {:induction false} EntryLinesAreNeat(doc: Document, n: nat)
    requires IsDocument(doc) && n <= |doc.entries|
    ensures AllNeat(EntryLines(doc.entries[..n]))
  {
    if n != 0 {
      assert doc.entries[..n][..n - 1] == doc.entries[..n - 1];
      EntryLinesAreNeat(doc, n - 1);
      ExtInfLineIsRead(doc.entries[n - 1].micros, StartScan(0));
    }
  }

  /** The head of the document: everything before the entries. */
  ghost function Head(doc: Document): seq<string> {
    doc.header + [MediaSequenceLine(doc.base)] + doc.extra
  }

  lemma ScanHead(doc: Document, ffmpegStartNum: nat)
    requires IsDocument(doc)
    ensures ScanLines(StartScan(ffmpegStartNum), Head(doc)) == Scan(-1.0, doc.base, 0, map[])
    ensures AllNeat(Head(doc))
  {
    var st := StartScan(ffmpegStartNum);
    var media := MediaSequenceLine(doc.base);
    ScanInert(st, doc.header);
    ScanAppend(st, doc.header, media);
    MediaSequenceLineIsRead(doc.base, st);
    ScanConcat(st, doc.header + [media], doc.extra);
    ScanInert(st.(base := doc.base), doc.extra);
  }

  // ----- round trip -----

  /** Parsing a whole document recovers exactly its durations, whatever the default start number. */
  lemma ParseRecoversDocument(doc: Document, ffmpegStartNum: nat)
    requires IsDocument(doc)
    ensures ScanText(StartScan(ffmpegStartNum), TextOf(Lines(doc)))
         == Scan(-1.0, doc.base, |doc.entries|, Durations(doc, |doc.entries|))
  {
    var st := StartScan(ffmpegStartNum);
    ScanHead(doc, ffmpegStartNum);
    assert doc.entries[..|doc.entries|] == doc.entries;
    ScanEntries(doc, |doc.entries|, ScanLines(st, Head(doc)));
    ScanConcat(st, Head(doc), EntryLines(doc.entries));
    LinesAreNeat(doc);
    assert Lines(doc) == Head(doc) + EntryLines(doc.entries);
    ScanNeatLines(st, Lines(doc), "");
    assert TextOf(Lines(doc)) + "" == TextOf(Lines(doc));
    ScanLastLine(ScanLines(st, Lines(doc)), "");
  }

  // ----- unfinished text -----

  /** A prefix of the text is some whole lines and a piece of the next one. */
  lemma {:induction false} PrefixIsLinesAndPiece(lines: seq<string>, p: string) returns (k: nat, q: string)
    requires p <= TextOf(lines)
    ensures k <= |lines| && p == TextOf(lines[..k]) + q
    ensures if k == |lines| then q == "" else q <= lines[k]
  {
    if lines == [] {
      k, q := 0, "";
    } else {
      var front, last := lines[..|lines| - 1], lines[|lines| - 1];
      if |p| <= |TextOf(front)| {
        k, q := PrefixIsLinesAndPiece(front, p);
        assert lines[..k] == front[..k];
      } else if |p| == |TextOf(lines)| {
        k, q := |lines|, "";
        assert lines[..k] == lines && p == TextOf(lines);
      } else {
        k, q := |front|, p[|TextOf(front)|..];
        assert TextOf(lines) == TextOf(front) + (last + "\n");
        assert p[..|TextOf(front)|] == TextOf(front);
      }
    }
  }

  ghost predicate SubMap(m: map<nat, real>, full: map<nat, real>) {
    forall s :: s in m ==> s in full && m[s] == full[s]
  }

  lemma TagLineFindsNothing(line: string, st: Scan)
    requires line == "" || line[0] == '#'
    ensures ScanLine(st, line).found == st.found
  {
  }

  lemma {:induction false} TagLinesFindNothing(lines: seq<string>, st: Scan)
    requires forall i :: 0 <= i < |lines| ==> lines[i] != "" && lines[i][0] == '#'
    ensures ScanLines(st, lines).found == st.found
  {
    if lines != [] {
      TagLinesFindNothing(lines[..|lines| - 1], st);
      TagLineFindsNothing(lines[|lines| - 1], ScanLines(st, lines[..|lines| - 1]));
    }
  }

  lemma HeadIsTags(doc: Document)
    requires IsDocument(doc)
    ensures forall i :: 0 <= i < |Head(doc)| ==> Head(doc)[i] != "" && Head(doc)[i][0] == '#'
  {
    MediaSequenceLineIsRead(doc.base, StartScan(0));
  }

  /** Nothing is found while the head is being read. */
  lemma PieceOfHead(doc: Document, k: nat, q: string, ffmpegStartNum: nat)
    requires IsDocument(doc) && k < |Head(doc)| && q <= Head(doc)[k]
    ensures ScanLine(ScanLines(StartScan(ffmpegStartNum), Head(doc)[..k]), q).found == map[]
  {
    HeadIsTags(doc);
    TagLinesFindNothing(Head(doc)[..k], StartScan(ffmpegStartNum));
    assert q == "" || q[0] == Head(doc)[k][0];
    TagLineFindsNothing(q, ScanLines(StartScan(ffmpegStartNum), Head(doc)[..k]));
  }

  lemma {:induction false} EntryLinesAt(entries: seq<Entry>, j: nat)
    requires j < |entries|
    ensures |EntryLines(entries)| == 2 * |entries|
    ensures EntryLines(entries)[..2 * j] == EntryLines(entries[..j])
    ensures EntryLines(entries)[2 * j] == ExtInfLine(entries[j].micros)
    ensures EntryLines(entries)[2 * j + 1] == entries[j].uri
  {
    var front := entries[..|entries| - 1];
    EntryLinesLength(front);
    if j < |front| {
      EntryLinesAt(front, j);
      assert front[..j] == entries[..j];
      assert EntryLines(entries)[..2 * j] == EntryLines(front)[..2 * j];
    } else {
      assert EntryLines(entries)[..2 * j] == EntryLines(front);
    }
  }

  lemma {:induction false} EntryLinesLength(entries: seq<Entry>)
    ensures |EntryLines(entries)| == 2 * |entries|
  {
    if entries != [] {
      EntryLinesLength(entries[..|entries| - 1]);
    }
  }

  /** Parsing any prefix of a document finds a part of what parsing the whole finds. */
  lemma ParsePrefixIsHarmless(doc: Document, p: string, ffmpegStartNum: nat)
    requires IsDocument(doc) && p <= TextOf(Lines(doc))
    ensures SubMap(ScanText(StartScan(ffmpegStartNum), p).found, Durations(doc, |doc.entries|))
  {
    var lines := Lines(doc);
    var k, q := PrefixIsLinesAndPiece(lines, p);
    if k == |lines| {
      assert lines[..k] == lines && p == TextOf(lines);
      ParseRecoversDocument(doc, ffmpegStartNum);
    } else {
      LinesAreNeat(doc);
      ScanPiece(StartScan(ffmpegStartNum), lines, k, q);
      PieceIsHarmless(doc, k, Trim(q), ffmpegStartNum);
    }
  }

  lemma ScanPiece(st: Scan, lines: seq<string>, k: nat, q: string)
    requires AllNeat(lines) && k < |lines| && q <= lines[k]
    ensures ScanText(st, TextOf(lines[..k]) + q) == ScanLine(ScanLines(st, lines[..k]), Trim(q))
    ensures Trim(q) <= lines[k]
  {
    assert forall i :: 0 <= i < |q| ==> q[i] == lines[k][i];
    ScanNeatLines(st, lines[..k], q);
    ScanLastLine(ScanLines(st, lines[..k]), q);
    TrimIsPrefix(q);
  }

  lemma PieceIsHarmless(doc: Document, k: nat, r: string, ffmpegStartNum: nat)
    requires IsDocument(doc) && k < |Lines(doc)| && r <= Lines(doc)[k]
    ensures SubMap(ScanLine(ScanLines(StartScan(ffmpegStartNum), Lines(doc)[..k]), r).found,
                   Durations(doc, |doc.entries|))
  {
    if k < |Head(doc)| {
      assert Lines(doc)[..k] == Head(doc)[..k] && Lines(doc)[k] == Head(doc)[k];
      PieceOfHead(doc, k, r, ffmpegStartNum);
    } else {
      EntryLinesLength(doc.entries);
      PieceAfterHead(doc, k - |Head(doc)|, r, ffmpegStartNum);
    }
  }

  lemma PieceAfterHead(doc: Document, m: nat, r: string, ffmpegStartNum: nat)
    requires IsDocument(doc) && m < 2 * |doc.entries| && |Lines(doc)| == |Head(doc)| + 2 * |doc.entries|
    requires r <= Lines(doc)[|Head(doc)| + m]
    ensures SubMap(ScanLine(ScanLines(StartScan(ffmpegStartNum), Lines(doc)[..|Head(doc)| + m]), r).found,
                   Durations(doc, |doc.entries|))
  {
    var j, k := m / 2, |Head(doc)| + m;
    LinesAroundEntry(doc, j);
    if m % 2 == 0 {
      assert m == 2 * j;
      assert Lines(doc)[..k] == LinesBefore(doc, j);
      PieceOfExtInf(doc, j, r, ffmpegStartNum);
    } else {
      assert m == 2 * j + 1;
      assert Lines(doc)[..k] == LinesBefore(doc, j) + [ExtInfLine(doc.entries[j].micros)];
      PieceOfUri(doc, j, r, ffmpegStartNum);
    }
  }

  /** The whole lines before entry `j`. */
  ghost function LinesBefore(doc: Document, j: nat): seq<string>
    requires j <= |doc.entries|
  {
    Head(doc) + EntryLines(doc.entries[..j])
  }

  lemma LinesAroundEntry(doc: Document, j: nat)
    requires j < |doc.entries|
    ensures var k := |Head(doc)| + 2 * j;
      && k + 1 < |Lines(doc)|
      && Lines(doc)[..k] == LinesBefore(doc, j)
      && Lines(doc)[..k + 1] == LinesBefore(doc, j) + [ExtInfLine(doc.entries[j].micros)]
      && Lines(doc)[k] == ExtInfLine(doc.entries[j].micros)
      && Lines(doc)[k + 1] == doc.entries[j].uri
  {
    EntryLinesAt(doc.entries, j);
    var g, e := Head(doc), EntryLines(doc.entries);
    assert Lines(doc) == g + e;
    PrefixOfConcat(g, e, 2 * j);
    PrefixOfConcat(g, e, 2 * j + 1);
    assert g + e[..2 * j + 1] == g + e[..2 * j] + [e[2 * j]];
  }

  lemma PrefixOfConcat(g: seq<string>, h: seq<string>, m: nat)
    requires m <= |h|
    ensures (g + h)[..|g| + m] == g + h[..m]
  {
  }

  lemma ScanBefore(doc: Document, j: nat, ffmpegStartNum: nat)
    requires IsDocument(doc) && j <= |doc.entries|
    ensures ScanLines(StartScan(ffmpegStartNum), LinesBefore(doc, j)) == Scan(-1.0, doc.base, j, Durations(doc, j))
  {
    var start := StartScan(ffmpegStartNum);
    ScanHead(doc, ffmpegStartNum);
    ScanEntries(doc, j, ScanLines(start, Head(doc)));
    ScanConcat(start, Head(doc), EntryLines(doc.entries[..j]));
  }

  lemma PieceOfExtInf(doc: Document, j: nat, r: string, ffmpegStartNum: nat)
    requires IsDocument(doc) && j < |doc.entries| && r <= ExtInfLine(doc.entries[j].micros)
    ensures SubMap(ScanLine(ScanLines(StartScan(ffmpegStartNum), LinesBefore(doc, j)), r).found,
                   Durations(doc, |doc.entries|))
  {
    ScanBefore(doc, j, ffmpegStartNum);
    var st := ScanLines(StartScan(ffmpegStartNum), LinesBefore(doc, j));
    ExtInfLineIsRead(doc.entries[j].micros, st);
    TagLineFindsNothing(r, st);
    DurationsGrow(doc, j, |doc.entries|);
  }

  /** A half-read segment line already files the entry's own duration, under the right number. */
  lemma PieceOfUri(doc: Document, j: nat, r: string, ffmpegStartNum: nat)
    requires IsDocument(doc) && j < |doc.entries| && r <= doc.entries[j].uri
    ensures SubMap(ScanLine(ScanLines(StartScan(ffmpegStartNum),
                                      LinesBefore(doc, j) + [ExtInfLine(doc.entries[j].micros)]), r).found,
                   Durations(doc, |doc.entries|))
  {
    var before := ScanLines(StartScan(ffmpegStartNum), LinesBefore(doc, j));
    ScanBefore(doc, j, ffmpegStartNum);
    ScanAppend(StartScan(ffmpegStartNum), LinesBefore(doc, j), ExtInfLine(doc.entries[j].micros));
    ExtInfLineIsRead(doc.entries[j].micros, before);
    UriPieceIsRead(doc, j, r, before.(pending := Seconds(doc.entries[j].micros)));
    DurationsGrow(doc, j, |doc.entries|);
    DurationsGrow(doc, j + 1, |doc.entries|);
  }

  lemma UriPieceIsRead(doc: Document, j: nat, r: string, st: Scan)
    requires IsDocument(doc) && j < |doc.entries| && r <= doc.entries[j].uri
    requires st == Scan(Seconds(doc.entries[j].micros), doc.base, j, Durations(doc, j))
    ensures ScanLine(st, r).found == if r == "" then Durations(doc, j) else Durations(doc, j + 1)
  {
    UriLineIsRead(doc, j, st);
    if r == "" {
      TagLineFindsNothing(r, st);
    } else {
      assert r[0] == doc.entries[j].uri[0];
      SegmentLineIsRead(st, r);
      SegmentLineIsRead(st, doc.entries[j].uri);
    }
  }

  lemma SegmentLineIsRead(st: Scan, line: string)
    requires line != "" && line[0] != '#' && st.pending != -1.0
    ensures ScanLine(st, line).found == st.found[(st.base + st.index) % TWO_TO_THE_32 := st.pending]
  {
    assert MEDIA_SEQUENCE_TAG[0] == '#' && EXTINF_TAG[0] == '#';
  }

  lemma DurationsGrow(doc: Document, m: nat, n: nat)
    requires m <= n <= |doc.entries|
    ensures SubMap(Durations(doc, m), Durations(doc, n))
  {
  }

  lemma LinesAreNeat(doc: Document)
    requires IsDocument(doc)
    ensures AllNeat(Lines(doc)) && forall k :: 0 <= k <= |Lines(doc)| ==> AllNeat(Lines(doc)[..k])
  {
    ScanHead(doc, 0);
    assert doc.entries[..|doc.entries|] == doc.entries;
    EntryLinesAreNeat(doc, |doc.entries|);
    assert Lines(doc) == Head(doc) + EntryLines(doc.entries);
  }

  // ----- a monitor that polls a growing file -----

  /** What one poll that sees this text finds. */
  function FoundIn(ffmpegStartNum: nat, text: string): map<nat, real> {
    ScanText(StartScan(ffmpegStartNum), text).found
  }

  /** The durations a monitor holds after polls that saw these texts. */
  ghost function Polled(ffmpegStartNum: nat, texts: seq<string>): map<nat, real> {
    if texts == [] then map[]
    else Polled(ffmpegStartNum, texts[..|texts| - 1]) + FoundIn(ffmpegStartNum, texts[|texts| - 1])
  }

  /** Each poll saw some beginning of a playlist that agrees with `full`. */
  ghost predicate PollsAgree(docs: seq<Document>, texts: seq<string>, full: map<nat, real>) {
    |docs| == |texts| && forall i :: 0 <= i < |docs| ==> PollAgrees(docs[i], texts[i], full)
  }

  ghost predicate PollAgrees(doc: Document, text: string, full: map<nat, real>) {
    IsDocument(doc) && text <= TextOf(Lines(doc)) && SubMap(Durations(doc, |doc.entries|), full)
  }

  /**
   A monitor polling a playlist that grows, shrinks or is rewritten, as long as its versions agree
   with one map of durations, never holds a wrong duration, and keeps all durations of every
   version some poll saw whole.
   */
  lemma PollingRewrittenPlaylists(docs: seq<Document>, texts: seq<string>, full: map<nat, real>, ffmpegStartNum: nat)
    requires PollsAgree(docs, texts, full)
    ensures SubMap(Polled(ffmpegStartNum, texts), full)
    ensures forall i :: 0 <= i < |docs| && texts[i] == TextOf(Lines(docs[i]))
              ==> SubMap(Durations(docs[i], |docs[i].entries|), Polled(ffmpegStartNum, texts))
  {
    forall i | 0 <= i < |docs|
      ensures SubMap(FoundIn(ffmpegStartNum, texts[i]), full)
      ensures texts[i] == TextOf(Lines(docs[i])) ==> FoundIn(ffmpegStartNum, texts[i]) == Durations(docs[i], |docs[i].entries|)
    {
      OnePollAgrees(docs[i], texts[i], full, ffmpegStartNum);
    }
    PolledKeepsFindings(ffmpegStartNum, texts, full);
  }

  lemma {:induction false} PolledKeepsFindings(ffmpegStartNum: nat, texts: seq<string>, full: map<nat, real>)
    requires forall i :: 0 <= i < |texts| ==> SubMap(FoundIn(ffmpegStartNum, texts[i]), full)
    ensures SubMap(Polled(ffmpegStartNum, texts), full)
    ensures forall i :: 0 <= i < |texts| ==> SubMap(FoundIn(ffmpegStartNum, texts[i]), Polled(ffmpegStartNum, texts))
  {
    if texts != [] {
      var n := |texts| - 1;
      var known, found := Polled(ffmpegStartNum, texts[..n]), FoundIn(ffmpegStartNum, texts[n]);
      PolledKeepsFindings(ffmpegStartNum, texts[..n], full);
      MergeAgreeing(known, found, full);
      forall i | 0 <= i < n ensures SubMap(FoundIn(ffmpegStartNum, texts[i]), known + found) {
        assert texts[..n][i] == texts[i];
        SubMapIsTransitive(FoundIn(ffmpegStartNum, texts[i]), known, known + found);
      }
    }
  }

  lemma SubMapIsTransitive(k: map<nat, real>, m: map<nat, real>, n: map<nat, real>)
    requires SubMap(k, m) && SubMap(m, n)
    ensures SubMap(k, n)
  {
  }

  lemma OnePollAgrees(doc: Document, text: string, full: map<nat, real>, ffmpegStartNum: nat)
    requires PollAgrees(doc, text, full)
    ensures SubMap(FoundIn(ffmpegStartNum, text), full)
    ensures text == TextOf(Lines(doc)) ==> FoundIn(ffmpegStartNum, text) == Durations(doc, |doc.entries|)
  {
    ParsePrefixIsHarmless(doc, text, ffmpegStartNum);
    if text == TextOf(Lines(doc)) {
      ParseRecoversDocument(doc, ffmpegStartNum);
    }
  }

  /** Merging findings that agree with one map keeps both. */
  lemma MergeAgreeing(m: map<nat, real>, n: map<nat, real>, full: map<nat, real>)
    requires SubMap(m, full) && SubMap(n, full)
    ensures SubMap(m + n, full) && SubMap(m, m + n) && SubMap(n, m + n)
  {
  }

  /**
   In particular a monitor polling an append-only playlist never holds a wrong duration, and holds
   all of them once some poll saw the whole text.
   */
  lemma PollingIsSafeAndComplete(doc: Document, texts: seq<string>, ffmpegStartNum: nat)
    requires IsDocument(doc)
    requires forall i :: 0 <= i < |texts| ==> texts[i] <= TextOf(Lines(doc))
    ensures SubMap(Polled(ffmpegStartNum, texts), Durations(doc, |doc.entries|))
    ensures TextOf(Lines(doc)) in texts ==> Polled(ffmpegStartNum, texts) == Durations(doc, |doc.entries|)
  {
    var docs, full := seq(|texts|, _ => doc), Durations(doc, |doc.entries|);
    assert SubMap(full, full);
    assert PollsAgree(docs, texts, full);
    PollingRewrittenPlaylists(docs, texts, full, ffmpegStartNum);
    if i :| 0 <= i < |texts| && texts[i] == TextOf(Lines(docs[i])) {
      BothWays(Polled(ffmpegStartNum, texts), Durations(docs[i], |docs[i].entries|));
    }
  }

  lemma BothWays(m: map<nat, real>, n: map<nat, real>)
    requires SubMap(m, n) && SubMap(n, m)
    ensures m == n
  {
  }

  // ----- the playlists the daemon prints -----

  lemma TagIsInert(line: string)
    requires IsNeat(line) && 10 < |line| && line[0] == '#' && line[4] == '-' && line[7] != 'M'
    ensures IsInert(line)
  {
    assert MEDIA_SEQUENCE_TAG[7] == 'M' && EXTINF_TAG[4] == 'I';
  }

  lemma VersionIsInert()
    ensures IsInert("#EXTM3U") && IsInert("#EXT-X-VERSION:3")
  {
    assert MEDIA_SEQUENCE_TAG[4] == '-' && EXTINF_TAG[4] == 'I' && "#EXTM3U"[4] == 'M';
    TagIsInert("#EXT-X-VERSION:3");
  }

  lemma PlaylistTypeIsInert()
    ensures IsInert("#EXT-X-PLAYLIST-TYPE:EVENT")
  {
    TagIsInert("#EXT-X-PLAYLIST-TYPE:EVENT");
  }

  lemma StartIsInert()
    ensures IsInert("#EXT-X-START:TIME-OFFSET=0,PRECISE=YES")
  {
    TagIsInert("#EXT-X-START:TIME-OFFSET=0,PRECISE=YES");
  }

  lemma TargetDurationIsInert()
    ensures IsInert("#EXT-X-TARGETDURATION:2")
  {
    TagIsInert("#EXT-X-TARGETDURATION:2");
  }

  lemma DiscontinuityIsInert()
    ensures IsInert("#EXT-X-DISCONTINUITY")
  {
    TagIsInert("#EXT-X-DISCONTINUITY");
  }

  lemma HeaderIsInert(i: nat)
    requires i < |HEADER|
    ensures IsInert(HEADER[i])
  {
    VersionIsInert();
    PlaylistTypeIsInert();
    StartIsInert();
    TargetDurationIsInert();
  }

  lemma SegmentUriIsNeat(s: nat)
    ensures IsNeat("seg_" + Numeral(s) + ".ts") && ("seg_" + Numeral(s) + ".ts")[0] != '#'
  {
    var uri := "seg_" + Numeral(s) + ".ts";
    NumeralReadsBack(s);
    DigitsAreNeat(Numeral(s));
    assert uri[|uri| - 1] == 's';
  }

  lemma SnapshotIsDocument(base: nat, segs: seq<Segment>, discontinuity: bool)
    requires base < TWO_TO_THE_32 && base + |segs| <= TWO_TO_THE_32
    ensures IsDocument(SnapshotDocument(base, segs, discontinuity))
  {
    var doc := SnapshotDocument(base, segs, discontinuity);
    forall i | 0 <= i < |doc.header| ensures IsInert(doc.header[i]) {
      HeaderIsInert(i);
    }
    DiscontinuityIsInert();
    forall i | 0 <= i < |segs|
      ensures IsNeat(ListedEntry(segs[i]).uri) && ListedEntry(segs[i]).uri[0] != '#'
    {
      SegmentUriIsNeat(segs[i].seqNo);
    }
  }

  /**
   Printing a snapshot of a buffer and parsing the text gives, under its own sequence number, the
   duration of each snapshot segment, with or without a discontinuity: the measured one to the
   nearest microsecond, or the nominal two seconds if it was not measured.
   */
  lemma PrintThenParse(cap: nat, r: nat, log: seq<Segment>, base: nat, segs: seq<Segment>,
                       discontinuity: bool, ffmpegStartNum: nat)
    requires IsFirstRun(WindowOf(cap, r, log), base, segs) && NextOf(r, log) < TWO_TO_THE_32
    ensures var found := ScanText(StartScan(ffmpegStartNum), TextOf(Lines(SnapshotDocument(base, segs, discontinuity)))).found;
      && (forall s :: s in found <==> base <= s < base + |segs|)
      && (forall i :: 0 <= i < |segs| ==> segs[i].seqNo == base + i && found[base + i] == Seconds(ListedMicros(segs[i])))
      && (forall i :: 0 <= i < |segs| ==>
            if segs[i].duration > 0.0 then -0.0000005 <= found[base + i] - segs[i].duration <= 0.0000005
            else found[base + i] == 2.0)
  {
    var doc := SnapshotDocument(base, segs, discontinuity);
    FirstRunIsContiguous(cap, r, log, base, segs);
    SnapshotIsDocument(base, segs, discontinuity);
    ParseRecoversDocument(doc, ffmpegStartNum);
    SnapshotDurations(base, segs, discontinuity);
    forall i | 0 <= i < |segs|
      ensures if segs[i].duration > 0.0 then -0.0000005 <= Seconds(ListedMicros(segs[i])) - segs[i].duration <= 0.0000005
              else Seconds(ListedMicros(segs[i])) == 2.0
    {
      ListedDurationIsMeasured(segs[i]);
    }
  }

  lemma SnapshotDurations(base: nat, segs: seq<Segment>, discontinuity: bool)
    ensures var found := Durations(SnapshotDocument(base, segs, discontinuity), |segs|);
      && (forall s :: s in found <==> base <= s < base + |segs|)
      && (forall i :: 0 <= i < |segs| ==> found[base + i] == Seconds(ListedMicros(segs[i])))
  {
    var doc := SnapshotDocument(base, segs, discontinuity);
    forall i | 0 <= i < |segs| ensures Durations(doc, |segs|)[base + i] == Seconds(ListedMicros(segs[i])) {
      assert DurationAt(doc, base + i) == Seconds(doc.entries[base + i - doc.base].micros);
    }
  }

  /** Every URI a playlist lists asks for exactly the segment it was printed for. */
  lemma ListedUriAsksForItsSegment(x: Segment)
    requires x.seqNo < TWO_TO_THE_32
    ensures var path := "/" + ListedEntry(x).uri;
      8 <= |path| && RequestedSeq(path) == Ok(x.seqNo)
  {
    var path := "/" + ListedEntry(x).uri;
    NumeralParses(x.seqNo);
    assert path == "/seg_" + Numeral(x.seqNo) + ".ts";
    assert path[|"/seg_"|..|path| - |".ts"|] == Numeral(x.seqNo);
  }

  // ----- lines no printed playlist has -----

  /** A number that does not fit 32 bits is ignored: base and index stay. */
  lemma TooLargeBaseIsIgnored(base: nat, st: Scan)
    requires TWO_TO_THE_32 <= base
    ensures ScanLine(st, MediaSequenceLine(base)) == st
  {
    var line, digits := MediaSequenceLine(base), Numeral(base);
    NumeralReadsBack(base);
    NumeralParses(base);
    assert line[|MEDIA_SEQUENCE_TAG|..] == digits;
    SpanAll(digits, IsDigit);
    assert digits[..|digits|] == digits;
  }

  /** A duration without a dot is a whole number of seconds. */
  lemma WholeSecondsAreRead(n: nat, st: Scan)
    ensures ScanLine(st, EXTINF_TAG + Numeral(n) + ",") == st.(pending := n as real)
  {
    var line, digits := EXTINF_TAG + Numeral(n) + ",", Numeral(n);
    NumeralReadsBack(n);
    assert EXTINF_TAG[4] != MEDIA_SEQUENCE_TAG[4] && line[4] == EXTINF_TAG[4];
    assert !(MEDIA_SEQUENCE_TAG <= line);
    var rest := line[|EXTINF_TAG|..];
    assert rest == digits + ",";
    SpanIs(rest, IsNumberChar, |digits|);
    assert rest[..|digits|] == digits;
    SpanAll(digits, IsDigit);
  }

  /** A duration without its comma is ignored. */
  lemma DurationWithoutCommaIsIgnored(number: string, st: Scan)
    requires forall i :: 0 <= i < |number| ==> IsNumberChar(number[i])
    ensures ScanLine(st, EXTINF_TAG + number) == st
  {
    var line := EXTINF_TAG + number;
    assert EXTINF_TAG[0] == '#' && MEDIA_SEQUENCE_TAG[4] != EXTINF_TAG[4] && line[4] == EXTINF_TAG[4] && line[0] == '#';
    assert line[|EXTINF_TAG|..] == number;
    SpanIs(number, IsNumberChar, |number|);
  }

  /** So is one with two dots. */
  lemma MalformedDurationIsIgnored(a: string, b: string, c: string, st: Scan)
    requires AllDigits(a) && AllDigits(b) && AllDigits(c)
    ensures ScanLine(st, EXTINF_TAG + (a + "." + b + "." + c) + ",") == st
  {
    var number := a + "." + b + "." + c;
    var line := EXTINF_TAG + number + ",";
    assert MEDIA_SEQUENCE_TAG[4] != EXTINF_TAG[4] && line[4] == EXTINF_TAG[4];
    var rest := line[|EXTINF_TAG|..];
    assert rest == number + ",";
    SpanIs(rest, IsNumberChar, |number|);
    assert rest[..|number|] == number;
    TwoDotsDoNotParse(a, b, c);
  }

  /** A dot may stand before all digits, but not alone. */
  lemma LeadingDotNeedsDigits(digits: string)
    requires AllDigits(digits)
    ensures ParseFloat("." + digits) == if digits == "" then Err else Ok(NumeralValue(digits) as real / Pow10(|digits|) as real)
  {
    var s := "." + digits;
    SpanIs(s, IsDigit, 0);
    assert s[1..] == digits && s[..0] + digits == digits;
    SpanAll(digits, IsDigit);
  }

  /** It may also stand behind them all. */
  lemma TrailingDotIsDropped(digits: string)
    requires AllDigits(digits) && digits != ""
    ensures ParseFloat(digits + ".") == Ok(NumeralValue(digits) as real)
  {
    var s := digits + ".";
    SpanIs(s, IsDigit, |digits|);
    assert s[|digits| + 1..] == "" && s[..|digits|] + "" == digits;
    assert Pow10(0) == 1;
  }

  lemma TwoDotsDoNotParse(a: string, b: string, c: string)
    requires AllDigits(a) && AllDigits(b)
    ensures ParseFloat(a + "." + b + "." + c).Err?
  {
    var number := a + "." + b + "." + c;
    SpanIs(number, IsDigit, |a|);
    var fraction := number[|a| + 1..];
    assert fraction == b + "." + c;
    SpanIs(fraction, IsDigit, |b|);
  }

  /** A file name counts once: without a duration of its own it is ignored. */
  lemma NameWithoutDurationIsIgnored(st: Scan, uri: string, other: string)
    requires st.pending != -1.0 && IsNeat(uri) && uri[0] != '#' && IsNeat(other) && other[0] != '#'
    ensures ScanLine(st, uri).found == st.found[(st.base + st.index) % TWO_TO_THE_32 := st.pending]
    ensures ScanLine(ScanLine(st, uri), other) == ScanLine(st, uri)
  {
    assert MEDIA_SEQUENCE_TAG[0] == '#' && EXTINF_TAG[0] == '#';
  }

  /** Without a MEDIA-SEQUENCE line the segments are numbered from the encoder's start number. */
  lemma UnnumberedCountsFromStart(doc: Document, n: nat)
    requires IsDocument(doc) && n <= |doc.entries|
    ensures ScanLines(StartScan(doc.base), EntryLines(doc.entries[..n])).found == Durations(doc, n)
  {
    ScanEntries(doc, n, StartScan(doc.base));
  }
}
