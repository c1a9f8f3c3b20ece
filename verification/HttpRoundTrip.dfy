/**
 What the proxy's parser makes of the requests that its printer writes.
 */
module HttpRoundTrip {
  import opened HttpMessages

  // ------------------------------------------------------------ strings

  predicate Free(s: string, delims: set<char>) {
    forall i :: 0 <= i < |s| ==> s[i] !in delims
  }

  lemma {:induction false} FirstOfAfter(a: string, c: char, b: string, delims: set<char>)
    requires Free(a, delims) && c in delims
    ensures FirstOf(a + [c] + b, delims) == |a|
    decreases |a|
  {
    var s := a + [c] + b;
    if a != [] {
      assert s[1..] == a[1..] + [c] + b;
      FirstOfAfter(a[1..], c, b, delims);
    }
  }

  lemma {:induction false} FirstOfNone(a: string, delims: set<char>)
    requires Free(a, delims)
    ensures FirstOf(a, delims) == |a|
    decreases |a|
  {
    if a != [] {
      FirstOfNone(a[1..], delims);
    }
  }

  lemma StrsepSplits(a: string, c: char, b: string, delims: set<char>)
    requires Free(a, delims) && c in delims
    ensures Strsep(a + [c] + b, delims) == (a, Some(b))
  {
    FirstOfAfter(a, c, b, delims);
    var s := a + [c] + b;
    assert s[..|a|] == a && s[|a| + 1..] == b;
  }

  lemma StrtokSplits(a: string, c: char, b: string)
    requires a != [] && Free(a, {c})
    ensures Strtok(a + [c] + b, c) == (Some(a), b)
  {
    FirstOfAfter(a, c, b, {c});
    var s := a + [c] + b;
    assert s[0] == a[0] != c;
    assert s[..|a|] == a && s[|a| + 1..] == b;
  }

  /** A line is read as far as its line feed. */
  lemma {:induction false} LineLengthOf(body: string, tail: string, room: nat)
    requires Free(body, {'\n'}) && |body| + 1 <= room
    ensures LineLength(body + "\n" + tail, room) == |body| + 1
    decreases |body|
  {
    var s := body + "\n" + tail;
    if body != [] {
      assert s[0] == body[0] && s[1..] == body[1..] + "\n" + tail;
      LineLengthOf(body[1..], tail, room - 1);
    }
  }

  // ------------------------------------------------------------ one field

  /** Sections 5 and 5.1 of RFC 9112: names without a colon, values without line breaks. */
  predicate Printable(f: Field) {
    && f.key != "" && Free(f.key, {':', '\n'})
    && Free(f.value, {'\r', '\n'}) && (f.value != "" ==> f.value[0] != ' ')
  }

  predicate Fits(f: Field) {
    |FieldLine(f)| <= LINE_BUFFER_SIZE - 1
  }

  lemma FieldLineShape(f: Field)
    ensures FieldLine(f) == f.key + [':'] + (" " + f.value + ['\r'] + "\n")
    ensures FieldLine(f) == (f.key + ": " + f.value + "\r") + "\n"
  {
  }

  /** What is printed for a field is parsed as that field. */
  lemma FieldRoundTrip(f: Field)
    requires Printable(f)
    ensures ParsedField(FieldLine(f)) == Some(f)
  {
    FieldLineShape(f);
    StrtokSplits(f.key, ':', " " + f.value + ['\r'] + "\n");
    StrtokSplits(" " + f.value, '\r', "\n");
    assert (" " + f.value)[1..] == f.value;
    assert SkipChar(f.value, ' ') == f.value;
  }

  lemma FieldLineIsRead(f: Field, tail: string)
    requires Printable(f) && Fits(f)
    ensures LineLength(FieldLine(f) + tail, LINE_BUFFER_SIZE - 1) == |FieldLine(f)|
    ensures (FieldLine(f) + tail)[..|FieldLine(f)|] == FieldLine(f)
    ensures (FieldLine(f) + tail)[|FieldLine(f)|..] == tail
    ensures FieldLine(f) != CRLF
  {
    FieldLineShape(f);
    var body := f.key + ": " + f.value + "\r";
    LineLengthOf(body, tail, LINE_BUFFER_SIZE - 1);
    assert |FieldLine(f)| > 2;
  }

  // ------------------------------------------------------------ the header

  predicate AllPrintable(fields: seq<Field>) {
    forall i :: 0 <= i < |fields| ==> Printable(fields[i]) && Fits(fields[i])
  }

  lemma BlankLineEnds(req: Request, tail: string)
    ensures ReadFields(req, CRLF + tail) == (req, tail)
  {
    var s := CRLF + tail;
    assert s == "\r" + "\n" + tail;
    LineLengthOf("\r", tail, LINE_BUFFER_SIZE - 1);
    assert s[..2] == CRLF && s[2..] == tail;
  }

  lemma Regroup(a: string, b: string, c: string, d: string)
    ensures a + b + c + d == a + (b + c + d)
  {
  }

  lemma OneFieldIsRead(req: Request, f: Field, after: string)
    requires Printable(f) && Fits(f)
    ensures ReadFields(req, FieldLine(f) + after) == ReadFields(req.(fields := req.fields + [f]), after)
  {
    FieldLineIsRead(f, after);
    FieldRoundTrip(f);
  }

  lemma FieldLinesPeel(fields: seq<Field>, tail: string)
    requires fields != []
    ensures FieldLines(fields) + CRLF + tail == FieldLine(fields[0]) + (FieldLines(fields[1..]) + CRLF + tail)
  {
    Regroup(FieldLine(fields[0]), FieldLines(fields[1..]), CRLF, tail);
  }

  lemma NoFieldsAreRead(req: Request, tail: string)
    ensures ReadFields(req, FieldLines([]) + CRLF + tail) == (req.(fields := req.fields + []), tail)
  {
    assert FieldLines([]) + CRLF + tail == CRLF + tail;
    BlankLineEnds(req, tail);
    assert req.fields + [] == req.fields;
  }

  lemma OneMoreFieldIsRead(req: Request, fields: seq<Field>, tail: string, result: (Request, string))
    requires fields != [] && Printable(fields[0]) && Fits(fields[0])
    requires ReadFields(req.(fields := req.fields + [fields[0]]), FieldLines(fields[1..]) + CRLF + tail) == result
    ensures ReadFields(req, FieldLines(fields) + CRLF + tail) == result
  {
    FieldLinesPeel(fields, tail);
    OneFieldIsRead(req, fields[0], FieldLines(fields[1..]) + CRLF + tail);
  }

  lemma {:induction false} FieldsRoundTrip(req: Request, fields: seq<Field>, tail: string)
    requires AllPrintable(fields)
    ensures ReadFields(req, FieldLines(fields) + CRLF + tail) == (req.(fields := req.fields + fields), tail)
    decreases |fields|
  {
    hide ReadFields;
    if fields == [] {
      NoFieldsAreRead(req, tail);
    } else {
      var next := req.(fields := req.fields + [fields[0]]);
      FieldsRoundTrip(next, fields[1..], tail);
      assert next.fields + fields[1..] == req.fields + fields;
      OneMoreFieldIsRead(req, fields, tail, (req.(fields := req.fields + fields), tail));
    }
  }

  /** A request that the printer can hand on: a path without separators after extraction, printable
      fields, and no line longer than the reader's buffer. */
  predicate Sendable(req: Request) {
    && req.path.Some? && !req.version.InvalidVersion?
    && Free(ExtractUri(req.path.value), SEPARATORS)
    && |StartLine(ExtractUri(req.path.value), req.version)| <= LINE_BUFFER_SIZE - 1
    && AllPrintable(Kept(req.fields))
  }

  function VersionToken(version: Version): string {
    if version.Http10? then "HTTP/1.0" else "HTTP/1.1"
  }

  lemma VersionTextShape(version: Version)
    ensures VersionText(version) == [' '] + (VersionToken(version) + ['\r'] + "\n")
  {
  }

  lemma StartLineShape(uri: string, version: Version)
    ensures StartLine(uri, version) == "GET" + [' '] + (uri + [' '] + (VersionToken(version) + ['\r'] + "\n"))
    ensures StartLine(uri, version) == ("GET " + uri + " " + VersionToken(version) + "\r") + "\n"
  {
    VersionTextShape(version);
    hide VersionText, VersionToken;
    var token := VersionToken(version);
    assert "GET " + uri + ([' '] + (token + ['\r'] + "\n")) == "GET" + [' '] + (uri + [' '] + (token + ['\r'] + "\n"));
    assert "GET " + uri + ([' '] + (token + ['\r'] + "\n")) == ("GET " + uri + " " + token + "\r") + "\n";
  }

  lemma GetIsKnown()
    ensures MethodIndex("GET", METHODS) == GET
  {
    assert METHODS[0] == "OPTIONS" && METHODS[1] == "GET" && METHODS[1..][0] == "GET";
    assert "OPTIONS"[0] == 'O' && "GET"[0] == 'G';
  }

  lemma VersionTokenIsKnown(version: Version)
    requires !version.InvalidVersion?
    ensures VersionOf(VersionToken(version)) == version
  {
    assert "HTTP/1.1"[7] == '1' && "HTTP/1.0"[7] == '0';
  }

  lemma StartLineRoundTrip(req: Request, uri: string, version: Version)
    requires Free(uri, SEPARATORS) && !version.InvalidVersion?
    ensures ParsedLine(req, StartLine(uri, version)) == req.(verb := GET, path := Some(uri), version := version)
  {
    hide StartLine, Strsep, MethodIndex, VersionOf;
    var token := VersionToken(version);
    StartLineShape(uri, version);
    StrsepSplits("GET", ' ', uri + [' '] + (token + ['\r'] + "\n"), SEPARATORS);
    StrsepSplits(uri, ' ', token + ['\r'] + "\n", SEPARATORS);
    StrsepSplits(token, '\r', "\n", SEPARATORS);
    GetIsKnown();
    VersionTokenIsKnown(version);
  }

  lemma StartLineIsRead(uri: string, version: Version, tail: string)
    requires Free(uri, SEPARATORS) && |StartLine(uri, version)| <= LINE_BUFFER_SIZE - 1
    ensures var line := StartLine(uri, version);
      && LineLength(line + tail, LINE_BUFFER_SIZE - 1) == |line| > 0
      && (line + tail)[..|line|] == line && (line + tail)[|line|..] == tail
  {
    StartLineShape(uri, version);
    LineLengthOf("GET " + uri + " " + VersionToken(version) + "\r", tail, LINE_BUFFER_SIZE - 1);
  }

  lemma ClosingIsPrintable(version: Version)
    ensures AllPrintable(Closing(version))
  {
    var f := Field("Connection", "close");
    assert Printable(f) && |FieldLine(f)| == 19;
  }

  /** What is read back of a printed request, in terms of its fields. */
  lemma PrintedIsRead(req: Request, tail: string, junk: Version)
    requires req.path.Some? && !req.version.InvalidVersion?
    requires Free(ExtractUri(req.path.value), SEPARATORS)
    requires |StartLine(ExtractUri(req.path.value), req.version)| <= LINE_BUFFER_SIZE - 1
    ensures var fields := Kept(req.fields) + Closing(req.version);
      var (r, rest) := ReadFields(Request(GET, req.version, Some(ExtractUri(req.path.value)), []),
        FieldLines(fields) + CRLF + tail);
      Header(Printed(req) + tail, junk) == (Some(r), rest)
  {
    hide ReadFields, ParsedLine;
    var uri := ExtractUri(req.path.value);
    var line := StartLine(uri, req.version);
    var fields := Kept(req.fields) + Closing(req.version);
    var after := FieldLines(fields) + CRLF + tail;
    Regroup(line, FieldLines(fields), CRLF, tail);
    StartLineIsRead(uri, req.version, after);
    StartLineRoundTrip(Request(0, junk, None, []), uri, req.version);
  }

  /** Round trip: reading back what build_request wrote yields a GET of the extracted path, the same
      version, the same fields less the two that are dropped, and `Connection: close` for 1.1; and it
      leaves exactly what followed the request on the wire. */
  lemma RequestRoundTrip(req: Request, tail: string, junk: Version)
    requires Sendable(req)
    ensures Header(Printed(req) + tail, junk) ==
      (Some(Request(GET, req.version, Some(ExtractUri(req.path.value)), Kept(req.fields) + Closing(req.version))), tail)
  {
    var fields := Kept(req.fields) + Closing(req.version);
    PrintedIsRead(req, tail, junk);
    ClosingIsPrintable(req.version);
    FieldsRoundTrip(Request(GET, req.version, Some(ExtractUri(req.path.value)), []), fields, tail);
    assert [] + fields == fields;
  }

  // ------------------------------------------------------------ what the parser delivers

  /** A path that the parser delivers has no separators, and so has none after extraction. */
  lemma ParsedPathIsClean(req: Request, line: string)
    requires req.path.None? && ParsedLine(req, line).path.Some?
    ensures Free(ParsedLine(req, line).path.value, SEPARATORS)
    ensures Free(ExtractUri(ParsedLine(req, line).path.value), SEPARATORS)
  {
    var path := ParsedLine(req, line).path.value;
    var (t0, r0) := Strsep(line, SEPARATORS);
    var (t1, r1) := Strsep(r0.value, SEPARATORS);
    assert path == t1;
    var k := DoubleSlash(path);
    if k < |path| {
      var after := path[k + 2..];
      var j := FirstOf(after, {'/'});
      assert forall i :: 0 <= i < |after| ==> after[i] == path[k + 2 + i];
    }
  }

  // ------------------------------------------------------------ received fields, sent on

  /** What read_line delivers: at least one character, and no line feed but perhaps as the last. */
  predicate Delivered(line: string) {
    line != "" && forall i :: 0 <= i < |line| - 1 ==> line[i] != '\n'
  }

  lemma {:induction false} OneLineFeed(stream: string, room: nat)
    ensures forall i :: 0 <= i < LineLength(stream, room) - 1 ==> stream[i] != '\n'
    decreases room
  {
    if room > 0 && stream != [] && stream[0] != '\n' {
      OneLineFeed(stream[1..], room - 1);
      assert forall i :: 0 < i < |stream| ==> stream[i] == stream[1..][i - 1];
    }
  }

  /** Every line that the reader takes from a stream is of that form. */
  lemma ReadLinesAreDelivered(stream: string, room: nat)
    requires LineLength(stream, room) > 0
    ensures Delivered(stream[..LineLength(stream, room)])
  {
    OneLineFeed(stream, room);
  }

  lemma {:induction false} Skipped(s: string, c: char) returns (j: nat)
    ensures j <= |s| && SkipChar(s, c) == s[j..]
    ensures (forall i :: 0 <= i < j ==> s[i] == c) && (j < |s| ==> s[j] != c)
    decreases |s|
  {
    if s != [] && s[0] == c {
      j := Skipped(s[1..], c);
      j := j + 1;
      assert s[j..] == s[1..][j - 1..];
      assert forall i :: 0 < i < j ==> s[i] == s[1..][i - 1];
    } else {
      j := 0;
    }
  }

  /** A token stretches from the first character that is no delimiter to the next that is one. */
  lemma TokenSpan(s: string, c: char) returns (a: nat, b: nat)
    requires Strtok(s, c).0.Some?
    ensures a < b <= |s| && Strtok(s, c) == (Some(s[a..b]), if b < |s| then s[b + 1..] else [])
    ensures SkipChar(s, c) == s[a..] && Free(s[a..b], {c}) && (b < |s| ==> s[b] == c)
  {
    a := Skipped(s, c);
    var k := FirstOf(s[a..], {c});
    b := a + k;
    assert s[a..][..k] == s[a..b];
    assert b < |s| ==> s[a..][k] == s[b] && s[a..][k + 1..] == s[b + 1..];
  }

  /** What the parser makes a field's value of: the line from the first character after the name's
      colon that is no carriage return. */
  function ValuePart(line: string): string {
    SkipChar(Strtok(line, ':').1, '\r')
  }

  /** No carriage return stands before the line feed. */
  predicate EndsBare(line: string) {
    var s := ValuePart(line);
    s != "" && s[|s| - 1] == '\n' && '\r' !in s
  }

  lemma NoTokenOfNothing(c: char)
    ensures Strtok("", c).0.None?
  {
  }

  /** The name ends at a colon inside the line, and the rest of the line holds the value. */
  lemma ReceivedName(line: string, f: Field) returns (d: nat)
    requires Delivered(line) && ParsedField(line) == Some(f)
    ensures d + 1 < |line| && Strtok(line, ':').1 == line[d + 1..] && f.key != "" && Free(f.key, {':', '\n'})
    ensures Strtok(line[d + 1..], '\r').0.Some?
    ensures f.value == SkipChar(Strtok(line[d + 1..], '\r').0.value, ' ')
  {
    hide SkipChar, Strtok;
    var c;
    c, d := TokenSpan(line, ':');
    NoTokenOfNothing('\r');
    assert d < |line| ==> line[d + 1..] != "" || d + 1 == |line|;
    assert Free(line[c..d], {':', '\n'}) by {
      forall i | 0 <= i < d - c
        ensures line[c..d][i] !in {':', '\n'}
      {
        assert line[c..d][i] == line[c + i] && line[c..d][i] !in {':'};
      }
    }
  }

  /** A value token less leading blanks, as a stretch of what is left of the line. */
  lemma TokenLessBlanks(rest: string) returns (a: nat, b: nat)
    requires Strtok(rest, '\r').0.Some?
    ensures var s := SkipChar(rest, '\r');
      && a <= b <= |s| && b > 0 && SkipChar(Strtok(rest, '\r').0.value, ' ') == s[a..b]
      && (forall i :: 0 <= i < a ==> s[i] == ' ') && (a < b ==> s[a] != ' ')
      && Free(s[..b], {'\r'}) && (b < |s| ==> s[b] == '\r')
  {
    hide SkipChar, Strtok;
    var p, q := TokenSpan(rest, '\r');
    var s := rest[p..];
    b := q - p;
    assert rest[p..q] == s[..b];
    a := Skipped(s[..b], ' ');
    assert s[..b][a..] == s[a..b];
  }

  lemma SkippedOneLineFeed(line: string, d: nat, c: char)
    requires Delivered(line) && d <= |line|
    ensures var s := SkipChar(line[d..], c); forall i :: 0 <= i < |s| - 1 ==> s[i] != '\n'
  {
    var j := Skipped(line[d..], c);
    var s := line[d..][j..];
    assert forall i :: 0 <= i < |s| ==> s[i] == line[d + j + i];
  }

  /** The value is the line's value part up to a carriage return, less leading blanks. */
  lemma ReceivedValue(line: string, f: Field) returns (a: nat, b: nat)
    requires Delivered(line) && ParsedField(line) == Some(f)
    ensures var s := ValuePart(line);
      && a <= b <= |s| && b > 0 && f.value == s[a..b] && (forall i :: 0 <= i < a ==> s[i] == ' ')
      && (a < b ==> s[a] != ' ') && Free(s[..b], {'\r'}) && (b < |s| ==> s[b] == '\r')
      && (forall i :: 0 <= i < |s| - 1 ==> s[i] != '\n')
  {
    hide SkipChar, Strtok;
    var d := ReceivedName(line, f);
    SkippedOneLineFeed(line, d + 1, '\r');
    a, b := TokenLessBlanks(line[d + 1..]);
  }

  /** A field that some line delivered. */
  ghost predicate Received(f: Field) {
    exists line :: Delivered(line) && ParsedField(line) == Some(f)
  }

  /** The value of a received field has a line feed in it exactly if its line ends in one with no
      carriage return between it and the beginning of the value part. */
  lemma LineFeedInValueIff(line: string, f: Field)
    requires Delivered(line) && ParsedField(line) == Some(f)
    ensures '\n' in f.value <==> EndsBare(line)
  {
    hide ParsedField, ValuePart;
    var a, b := ReceivedValue(line, f);
    var s := ValuePart(line);
    if '\n' in f.value {
      var i :| 0 <= i < |f.value| && f.value[i] == '\n';
      assert s[a + i] == '\n' && a + i == |s| - 1 && b == |s|;
      assert s[..b] == s;
    }
    if EndsBare(line) {
      assert forall i :: 0 <= i < |s| ==> s[i] in s;
      assert s[|s| - 1] == '\n' && a <= |s| - 1;
      assert f.value[|s| - 1 - a] == s[|s| - 1];
    }
  }

  /** The shape of a received field: a line feed can only be the last character of its value. */
  lemma ReceivedShape(f: Field)
    requires Received(f)
    ensures f.key != "" && Free(f.key, {':', '\n'}) && Free(f.value, {'\r'})
    ensures f.value != "" ==> f.value[0] != ' '
    ensures forall i :: 0 <= i < |f.value| - 1 ==> f.value[i] != '\n'
  {
    hide ParsedField, ValuePart;
    var line :| Delivered(line) && ParsedField(line) == Some(f);
    var d := ReceivedName(line, f);
    var a, b := ReceivedValue(line, f);
    var s := ValuePart(line);
    assert forall i :: 0 <= i < |f.value| ==> f.value[i] == s[a + i] && f.value[i] == s[..b][a + i];
  }

  lemma PrintableIffNoLineFeed(f: Field)
    requires Received(f)
    ensures Printable(f) <==> '\n' !in f.value
  {
    ReceivedShape(f);
  }

  lemma FreeConcat(a: string, b: string, delims: set<char>)
    requires Free(a, delims) && forall i :: 0 <= i < |b| ==> b[i] !in delims
    ensures Free(a + b, delims)
  {
  }

  lemma LineIsDelivered(body: string)
    requires Free(body, {'\n'})
    ensures Delivered(body + "\n")
  {
  }

  /** Every field that the printer can write may have been received, as the line that it writes. */
  lemma PrintableIsReceived(f: Field)
    requires Printable(f)
    ensures Received(f)
  {
    FieldLineShape(f);
    FieldRoundTrip(f);
    hide ParsedField, FieldLine;
    var named := f.key + ": " + f.value;
    FreeConcat(f.key, ": ", {'\n'});
    FreeConcat(f.key + ": ", f.value, {'\n'});
    FreeConcat(named, "\r", {'\n'});
    hide Free, Delivered;
    LineIsDelivered(named + "\r");
    assert Delivered(FieldLine(f));
  }

  lemma BareLineIsWritten(f: Field, v: string, behind: seq<Field>, tail: string)
    requires f.value == v + "\n"
    ensures FieldLines([f] + behind) + CRLF + tail ==
      (f.key + ": " + v + "\n") + (CRLF + (FieldLines(behind) + CRLF + tail))
  {
    FieldLinesPeel([f] + behind, tail);
    assert ([f] + behind)[1..] == behind;
    hide FieldLines;
    var rest := FieldLines(behind) + CRLF + tail;
    assert FieldLine(f) + rest == (f.key + ": " + v + "\n") + (CRLF + rest);
  }

  lemma TokenToEnd(s: string, c: char)
    requires s != "" && Free(s, {c})
    ensures Strtok(s, c) == (Some(s), [])
  {
    FirstOfNone(s, {c});
    assert s[..|s|] == s;
  }

  lemma BareLineIsParsed(key: string, v: string)
    requires key != "" && Free(key, {':'}) && Free(v, {'\r'}) && (v != "" ==> v[0] != ' ')
    ensures ParsedField(key + ": " + v + "\n") == Some(Field(key, v + "\n"))
  {
    hide Strtok;
    var w := v + "\n";
    var rest := " " + w;
    assert key + ": " + v + "\n" == key + [':'] + rest;
    StrtokSplits(key, ':', rest);
    TokenToEnd(rest, '\r');
    assert rest[1..] == w && SkipChar(w, ' ') == w;
  }

  /** A value that ends in a line feed is itself kept when it is sent on, but the line feed ends the
      header there and then, and the fields behind it are taken for the body. */
  lemma LineFeedValueTruncatesHeader(req: Request, key: string, v: string, behind: seq<Field>, tail: string)
    requires key != "" && Free(key, {':', '\n'}) && Free(v, {'\r', '\n'}) && (v != "" ==> v[0] != ' ')
    requires |key| + |v| + 3 <= LINE_BUFFER_SIZE - 1
    ensures ReadFields(req, FieldLines([Field(key, v + "\n")] + behind) + CRLF + tail) ==
      (req.(fields := req.fields + [Field(key, v + "\n")]), FieldLines(behind) + CRLF + tail)
  {
    var f := Field(key, v + "\n");
    var rest := FieldLines(behind) + CRLF + tail;
    var line := key + ": " + v + "\n";
    var s := FieldLines([f] + behind) + CRLF + tail;
    BareLineIsWritten(f, v, behind, tail);
    BareLineIsParsed(key, v);
    LineLengthOf(key + ": " + v, CRLF + rest, LINE_BUFFER_SIZE - 1);
    assert s[..|line|] == line && s[|line|..] == CRLF + rest;
    assert line != CRLF;
    BlankLineEnds(req.(fields := req.fields + [f]), rest);
  }

  lemma LineFeedLast(f: Field) returns (v: string)
    requires Received(f)
    ensures Free(v, {'\r', '\n'}) && (v != "" ==> v[0] != ' ')
    ensures f.value == if '\n' in f.value then v + "\n" else v
  {
    ReceivedShape(f);
    hide Received;
    v := f.value;
    if '\n' in f.value {
      var i :| 0 <= i < |f.value| && f.value[i] == '\n';
      v := f.value[..i];
      assert f.value == v + "\n";
    }
  }

  ghost predicate AllReceived(fields: seq<Field>) {
    forall i :: 0 <= i < |fields| ==> Received(fields[i]) && Fits(fields[i])
  }

  predicate NoLineFeeds(fields: seq<Field>) {
    forall i :: 0 <= i < |fields| ==> '\n' !in fields[i].value
  }

  lemma TruncatedDiffers(req: Request, fields: seq<Field>, tail: string)
    requires fields != [] && Received(fields[0]) && Fits(fields[0]) && '\n' in fields[0].value
    ensures |ReadFields(req, FieldLines(fields) + CRLF + tail).1| > |tail|
  {
    ReceivedShape(fields[0]);
    var v := LineFeedLast(fields[0]);
    assert |FieldLine(fields[0])| == |fields[0].key| + |v| + 5;
    assert fields == [fields[0]] + fields[1..] && fields[0] == Field(fields[0].key, v + "\n");
    hide ReadFields, FieldLine, Received, Free;
    LineFeedValueTruncatesHeader(req, fields[0].key, v, fields[1..], tail);
  }

  /** Received fields, sent on and read back, come through complete and without a byte of what follows
      if and only if none of their values has a line feed. */
  lemma {:induction false} ReceivedFieldsSurviveIff(req: Request, fields: seq<Field>, tail: string)
    requires AllReceived(fields)
    ensures ReadFields(req, FieldLines(fields) + CRLF + tail) == (req.(fields := req.fields + fields), tail) <==>
      NoLineFeeds(fields)
    decreases |fields|
  {
    hide ReadFields, FieldLines, Received, Fits;
    if fields == [] {
      NoFieldsAreRead(req, tail);
    } else if '\n' in fields[0].value {
      TruncatedDiffers(req, fields, tail);
      assert !NoLineFeeds(fields);
    } else {
      PrintableIffNoLineFeed(fields[0]);
      var next := req.(fields := req.fields + [fields[0]]);
      ReceivedFieldsSurviveIff(next, fields[1..], tail);
      assert next.fields + fields[1..] == req.fields + fields;
      OneMoreFieldIsRead(req, fields, tail, ReadFields(next, FieldLines(fields[1..]) + CRLF + tail));
      assert NoLineFeeds(fields) <==> NoLineFeeds(fields[1..]) by {
        assert forall i :: 0 < i < |fields| ==> fields[i] == fields[1..][i - 1];
      }
    }
  }

  /** For one field, in terms of the line that it came from. */
  lemma ReceivedFieldSurvivesIff(req: Request, line: string, f: Field, tail: string)
    requires Delivered(line) && ParsedField(line) == Some(f) && Fits(f)
    ensures ReadFields(req, FieldLine(f) + CRLF + tail) == (req.(fields := req.fields + [f]), tail) <==>
      !EndsBare(line)
  {
    hide ReadFields, ParsedField, EndsBare;
    assert Received(f);
    OneLine(f);
    ReceivedFieldsSurviveIff(req, [f], tail);
    LineFeedInValueIff(line, f);
  }

  /** For a whole request whose fields were received: the round trip succeeds if and only if none of
      the values that are sent on has a line feed. */
  lemma RequestSurvivesIff(req: Request, tail: string, junk: Version)
    requires req.path.Some? && !req.version.InvalidVersion?
    requires Free(ExtractUri(req.path.value), SEPARATORS)
    requires |StartLine(ExtractUri(req.path.value), req.version)| <= LINE_BUFFER_SIZE - 1
    requires AllReceived(Kept(req.fields))
    ensures Header(Printed(req) + tail, junk) ==
      (Some(Request(GET, req.version, Some(ExtractUri(req.path.value)), Kept(req.fields) + Closing(req.version))), tail)
      <==> NoLineFeeds(Kept(req.fields))
  {
    hide ReadFields, Header, Printed, FieldLines, StartLine, ExtractUri, FieldLine;
    var fields := Kept(req.fields) + Closing(req.version);
    PrintedIsRead(req, tail, junk);
    ClosingIsPrintable(req.version);
    forall i | 0 <= i < |Closing(req.version)|
      ensures Received(Closing(req.version)[i])
    {
      PrintableIsReceived(Closing(req.version)[i]);
    }
    ReceivedFieldsSurviveIff(Request(GET, req.version, Some(ExtractUri(req.path.value)), []), fields, tail);
    assert [] + fields == fields;
    assert NoLineFeeds(fields) <==> NoLineFeeds(Kept(req.fields)) by {
      assert forall i :: 0 <= i < |Kept(req.fields)| ==> fields[i] == Kept(req.fields)[i];
    }
  }

  // ------------------------------------------------------------ ordinary lines

  lemma OrdinaryLine(key: string, v: string, end: string)
    requires key != "" && Free(key, {':', '\n'}) && Free(v, {'\r', '\n'}) && end in {CRLF, "\n"}
    ensures Strtok(key + ":" + v + end, ':') == (Some(key), v + end)
    ensures ValuePart(key + ":" + v + end) == if v == "" then "\n" else v + end
  {
    var line := key + ":" + v + end;
    assert line == key + [':'] + (v + end);
    StrtokSplits(key, ':', v + end);
    hide Strtok;
    if v == "" {
      assert v + end == end;
      assert CRLF[1..] == "\n" && SkipChar(CRLF, '\r') == SkipChar("\n", '\r') == "\n";
    } else {
      assert (v + end)[0] == v[0];
    }
  }

  lemma EmptyValueToken(end: string)
    requires end in {CRLF, "\n"}
    ensures Strtok(end, '\r') == (Some("\n"), "") && SkipChar("\n", ' ') == "\n"
  {
    assert CRLF[1..] == "\n" && SkipChar(CRLF, '\r') == SkipChar("\n", '\r') == "\n";
    FirstOfNone("\n", {'\r'});
    assert "\n"[..1] == "\n";
  }

  /** Of a header line with a name, a colon and a value, ended in either way, the value is kept without
      its leading blanks; the parser takes a bare line feed for part of it, and for the whole of an
      empty one. */
  lemma ValueIsKeptUnlessEmpty(key: string, v: string, end: string)
    requires key != "" && Free(key, {':', '\n'}) && Free(v, {'\r', '\n'}) && end in {CRLF, "\n"}
    ensures ParsedField(key + ":" + v + end) ==
      Some(Field(key, if v == "" then "\n" else if end == CRLF then SkipChar(v, ' ') else SkipChar(v + "\n", ' ')))
  {
    OrdinaryLine(key, v, end);
    hide Strtok, SkipChar;
    if v == "" {
      EmptyValueToken(end);
    } else if end == CRLF {
      assert v + CRLF == v + ['\r'] + "\n";
      StrtokSplits(v, '\r', "\n");
    } else {
      TokenToEnd(v + "\n", '\r');
    }
  }

  lemma OrdinaryLineIsDelivered(key: string, v: string, end: string)
    requires Free(key, {'\n'}) && Free(v, {'\n'}) && end in {CRLF, "\n"}
    ensures Delivered(key + ":" + v + end)
  {
    var body := key + ":" + v + end[..|end| - 1];
    FreeConcat(key, ":", {'\n'});
    FreeConcat(key + ":", v, {'\n'});
    FreeConcat(key + ":" + v, end[..|end| - 1], {'\n'});
    hide Free, Delivered;
    assert key + ":" + v + end == body + "\n";
    LineIsDelivered(body);
  }

  lemma OrdinaryLineEndsBare(key: string, v: string, end: string)
    requires key != "" && Free(key, {':', '\n'}) && Free(v, {'\r', '\n'}) && end in {CRLF, "\n"}
    ensures EndsBare(key + ":" + v + end) <==> v == "" || end == "\n"
  {
    OrdinaryLine(key, v, end);
    hide ValuePart;
    if v != "" && end == CRLF {
      assert (v + CRLF)[|v|] == '\r';
    }
  }

  lemma OrdinaryField(key: string, v: string, end: string) returns (f: Field)
    requires key != "" && Free(key, {':', '\n'}) && Free(v, {'\r', '\n'}) && end in {CRLF, "\n"}
    ensures ParsedField(key + ":" + v + end) == Some(f) && f.key == key && |f.value| <= |v| + 1
  {
    ValueIsKeptUnlessEmpty(key, v, end);
    hide ParsedField;
    f := ParsedField(key + ":" + v + end).value;
    var _ := Skipped(v, ' ');
    var _ := Skipped(v + "\n", ' ');
  }

  /** So an ordinary line comes through exactly if it has a value and ends in CRLF. */
  lemma OrdinaryLineSurvivesIff(req: Request, key: string, v: string, end: string, tail: string)
    requires key != "" && Free(key, {':', '\n'}) && Free(v, {'\r', '\n'}) && end in {CRLF, "\n"}
    requires |key| + |v| + 5 <= LINE_BUFFER_SIZE - 1
    ensures var f := ParsedField(key + ":" + v + end);
      && f.Some? && f.value.key == key
      && (ReadFields(req, FieldLine(f.value) + CRLF + tail) == (req.(fields := req.fields + [f.value]), tail) <==>
            v != "" && end == CRLF)
  {
    var line := key + ":" + v + end;
    assert Free(key, {'\n'}) && Free(v, {'\n'});
    OrdinaryLineIsDelivered(key, v, end);
    hide ReadFields, ParsedField, EndsBare, Free, Delivered;
    OrdinaryLineEndsBare(key, v, end);
    var f := OrdinaryField(key, v, end);
    assert Fits(f);
    ReceivedFieldSurvivesIff(req, line, f, tail);
  }
}
