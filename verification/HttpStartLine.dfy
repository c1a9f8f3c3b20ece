/**
 What the parser makes of the first line of a request, where it takes the header to end, and what the
 proxy asks the origin server for.
 */
module HttpStartLine {
  import opened HttpMessages
  import opened HttpRoundTrip

  // ------------------------------------------------------------ the path that is asked for

  /** No two slashes in a row. */
  predicate NoDoubleSlash(s: string) {
    forall i, j :: 0 <= i < |s| && j == i + 1 < |s| && s[i] == '/' ==> s[j] != '/'
  }

  lemma {:induction false} NoDoubleSlashFound(s: string)
    requires NoDoubleSlash(s)
    ensures DoubleSlash(s) == |s|
    decreases |s|
  {
    if |s| >= 2 {
      assert s[0] == '/' ==> s[1] != '/';
      NoDoubleSlashFound(s[1..]);
    }
  }

  lemma {:induction false} DoubleSlashFound(a: string, b: string)
    requires NoDoubleSlash(a + "/")
    ensures DoubleSlash(a + "//" + b) == |a|
    decreases |a|
  {
    var s := a + "//" + b;
    if a != "" {
      assert s[1..] == a[1..] + "//" + b;
      assert s[0] == a[0] == (a + "/")[0] && s[1] == (a + "/")[1];
      assert (a + "/")[1..] == a[1..] + "/";
      DoubleSlashFound(a[1..], b);
    }
  }

  /** Of a path with two slashes in a row, what is asked for begins with the first slash after the host
      that follows them. */
  lemma PathBehindHost(a: string, host: string, rest: string)
    requires NoDoubleSlash(a + "/") && '/' !in host
    ensures ExtractUri(a + "//" + host + "/" + rest) == "/" + rest
  {
    var path := a + "//" + (host + "/" + rest);
    assert a + "//" + host + "/" + rest == path;
    DoubleSlashFound(a, host + "/" + rest);
    assert path[|a| + 2..] == host + "/" + rest;
    assert Free(host, {'/'});
    FirstOfAfter(host, '/', rest, {'/'});
    assert host + ['/'] + rest == host + "/" + rest;
    assert (host + "/" + rest)[|host|..] == "/" + rest;
  }

  /** Without such a slash, the root is asked for. */
  lemma RootOfHost(a: string, host: string)
    requires NoDoubleSlash(a + "/") && '/' !in host
    ensures ExtractUri(a + "//" + host) == "/"
  {
    DoubleSlashFound(a, host);
    assert (a + "//" + host)[|a| + 2..] == host;
    assert Free(host, {'/'});
    FirstOfNone(host, {'/'});
  }

  /** And also of everything without two slashes in a row: of a bare path, say. */
  lemma RootOtherwise(path: string)
    requires NoDoubleSlash(path)
    ensures ExtractUri(path) == "/"
  {
    NoDoubleSlashFound(path);
  }

  /** Of an absolute URI, the proxy asks for what follows the host. */
  lemma AbsoluteUri(scheme: string, host: string, rest: string)
    requires '/' !in scheme && '/' !in host
    ensures ExtractUri(scheme + "://" + host + "/" + rest) == "/" + rest
    ensures ExtractUri(scheme + "://" + host) == "/"
  {
    var a := scheme + ":";
    assert forall i :: 0 <= i < |scheme| ==> a[i] == scheme[i] && scheme[i] in scheme;
    assert NoDoubleSlash(a + "/");
    assert scheme + "://" + host == a + "//" + host;
    PathBehindHost(a, host, rest);
    RootOfHost(a, host);
  }

  /** The request for an absolute URI is read back as one for what follows the host, with the fields
      but the two that are dropped, and with `Connection: close` for version 1.1. */
  lemma AbsoluteRequestRoundTrip(req: Request, scheme: string, host: string, rest: string, tail: string, junk: Version)
    requires '/' !in scheme && '/' !in host && req.path == Some(scheme + "://" + host + "/" + rest)
    requires req.version in {Http10, Http11} && Free(rest, SEPARATORS) && |rest| + 16 <= LINE_BUFFER_SIZE - 1
    requires AllPrintable(Kept(req.fields))
    ensures var closing := if req.version == Http11 then [Field("Connection", "close")] else [];
      Header(Printed(req) + tail, junk) ==
        (Some(Request(GET, req.version, Some("/" + rest), Kept(req.fields) + closing)), tail)
  {
    AbsoluteUri(scheme, host, rest);
    StartLineLength("/" + rest, req.version);
    hide ExtractUri, Header, Printed, StartLine, FieldLines;
    assert Free("/" + rest, SEPARATORS);
    RequestRoundTrip(req, tail, junk);
  }

  /** With fields as they were received: exactly if none of the values that are sent on has a line
      feed. */
  lemma AbsoluteRequestSurvivesIff(req: Request, scheme: string, host: string, rest: string, tail: string,
      junk: Version)
    requires '/' !in scheme && '/' !in host && req.path == Some(scheme + "://" + host + "/" + rest)
    requires req.version in {Http10, Http11} && Free(rest, SEPARATORS) && |rest| + 16 <= LINE_BUFFER_SIZE - 1
    requires AllReceived(Kept(req.fields))
    ensures var closing := if req.version == Http11 then [Field("Connection", "close")] else [];
      Header(Printed(req) + tail, junk) ==
        (Some(Request(GET, req.version, Some("/" + rest), Kept(req.fields) + closing)), tail) <==>
      NoLineFeeds(Kept(req.fields))
  {
    AbsoluteUri(scheme, host, rest);
    StartLineLength("/" + rest, req.version);
    hide ExtractUri, Header, Printed, StartLine, FieldLines, AllReceived, NoLineFeeds;
    assert Free("/" + rest, SEPARATORS);
    RequestSurvivesIff(req, tail, junk);
  }

  lemma StartLineLength(uri: string, version: Version)
    ensures |StartLine(uri, version)| == |uri| + 15
  {
  }

  /** What the printer sends begins with a request for that. */
  lemma PrintedAsksFor(req: Request, scheme: string, host: string, rest: string)
    requires '/' !in scheme && '/' !in host && req.path == Some(scheme + "://" + host + "/" + rest)
    requires req.version in {Http10, Http11}
    ensures var line := "GET /" + rest + (if req.version == Http11 then " HTTP/1.1\r\n" else " HTTP/1.0\r\n");
      |Printed(req)| >= |line| && Printed(req)[..|line|] == line
  {
    AbsoluteUri(scheme, host, rest);
    AsksFor(rest, req.version);
    hide ExtractUri, FieldLines, StartLine;
    Beginning(StartLine("/" + rest, req.version), FieldLines(Kept(req.fields) + Closing(req.version)), CRLF);
  }

  lemma Beginning(a: string, b: string, c: string)
    ensures |a + b + c| >= |a| && (a + b + c)[..|a|] == a
  {
  }

  lemma AsksFor(rest: string, version: Version)
    requires version in {Http10, Http11}
    ensures StartLine("/" + rest, version) ==
      "GET /" + rest + (if version == Http11 then " HTTP/1.1\r\n" else " HTTP/1.0\r\n")
  {
    assert "GET " + ("/" + rest) == "GET /" + rest;
  }

  // ------------------------------------------------------------ the fields that are kept

  /** The printer drops Connection and Proxy-Connection, and keeps all other fields, as often as they
      occur. */
  lemma {:induction false} KeptFields(fields: seq<Field>, f: Field)
    ensures multiset(Kept(fields))[f] ==
      if f.key == "Connection" || f.key == "Proxy-Connection" then 0 else multiset(fields)[f]
    decreases |fields|
  {
    if fields != [] {
      KeptFields(fields[1..], f);
      assert fields == [fields[0]] + fields[1..];
      assert multiset(Kept(fields)) ==
        multiset(if Dropped(fields[0]) then [] else [fields[0]]) + multiset(Kept(fields[1..]));
    }
  }

  /** What is kept of one part of the fields comes before what is kept of the part behind it. */
  lemma {:induction false} KeptInOrder(xs: seq<Field>, ys: seq<Field>)
    ensures Kept(xs + ys) == Kept(xs) + Kept(ys)
    decreases |xs|
  {
    if xs == [] {
      assert xs + ys == ys;
    } else {
      assert (xs + ys)[0] == xs[0] && (xs + ys)[1..] == xs[1..] + ys;
      KeptInOrder(xs[1..], ys);
    }
  }

  // ------------------------------------------------------------ the first line

  lemma {:induction false} MethodIndexIs(token: string, names: seq<string>)
    ensures var i := MethodIndex(token, names);
      (i < |names| <==> token in names) && (i < |names| ==> names[i] == token)
    decreases |names|
  {
    if names != [] && names[0] != token {
      MethodIndexIs(token, names[1..]);
    }
  }

  lemma LaterTokensKeepVerb(state: nat, req: Request, rest: Option<string>)
    requires 1 <= state
    ensures ParsedFrom(state, req, rest).verb == req.verb
    decreases 3 - state
  {
    if rest.Some? && state == 1 {
      var (token, more) := Strsep(rest.value, SEPARATORS);
      LaterTokensKeepVerb(2, req.(path := Some(token)), more);
    }
  }

  /** The verb is the index of the line's first token among the method names.  If it is none of them,
      the verb is INVALID, and nothing else of the line is looked at. */
  lemma VerbIsFirstToken(req: Request, line: string)
    ensures var token := line[..FirstOf(line, SEPARATORS)]; var r := ParsedLine(req, line);
      && r.verb < |METHODS| == 9
      && (token in METHODS ==> METHODS[r.verb] == token)
      && (token !in METHODS ==> METHODS[r.verb] == "INVALID" && r == req.(verb := r.verb))
  {
    var (token, more) := Strsep(line, SEPARATORS);
    MethodIndexIs(token, METHODS);
    LaterTokensKeepVerb(1, req.(verb := MethodIndex(token, METHODS)), more);
  }

  /** Of a line of three tokens that begins with a method name, the second one is the path, and the
      third one, by its first eight characters, the version. */
  lemma ThreeTokensAreParsed(req: Request, verb: string, path: string, protocol: string)
    requires verb in METHODS && Free(path, SEPARATORS) && Free(protocol, SEPARATORS)
    ensures var r := ParsedLine(req, verb + " " + path + " " + protocol + CRLF);
      && r.verb < |METHODS| && METHODS[r.verb] == verb && r.path == Some(path) && r.fields == req.fields
      && r.version ==
           if |protocol| >= 8 && protocol[..8] == "HTTP/1.0" then Http10
           else if |protocol| >= 8 && protocol[..8] == "HTTP/1.1" then Http11
           else InvalidVersion
  {
    hide Strsep, MethodIndex, Free, StartsWith;
    NamesAreFree(verb);
    ThreeTokensShape(verb, path, protocol);
    var third := protocol + ['\r'] + "\n";
    var second := path + [' '] + third;
    StrsepSplits(verb, ' ', second, SEPARATORS);
    StrsepSplits(path, ' ', third, SEPARATORS);
    StrsepSplits(protocol, '\r', "\n", SEPARATORS);
    MethodIndexIs(verb, METHODS);
    VersionByPrefix(protocol);
    hide VersionOf;
  }

  lemma ThreeTokensShape(verb: string, path: string, protocol: string)
    ensures verb + " " + path + " " + protocol + CRLF ==
      verb + [' '] + (path + [' '] + (protocol + ['\r'] + "\n"))
  {
    assert verb + " " + path + " " + protocol + CRLF == verb + " " + (path + " " + (protocol + CRLF));
  }

  lemma VersionByPrefix(protocol: string)
    ensures VersionOf(protocol) ==
      if |protocol| >= 8 && protocol[..8] == "HTTP/1.0" then Http10
      else if |protocol| >= 8 && protocol[..8] == "HTTP/1.1" then Http11
      else InvalidVersion
  {
  }

  lemma NamesAreFree(verb: string)
    requires verb in METHODS
    ensures Free(verb, SEPARATORS)
  {
  }

  // ------------------------------------------------------------ where the header ends

  /** A line that fits the buffer and is not the blank one. */
  predicate HeaderLine(line: string) {
    && 0 < |line| <= LINE_BUFFER_SIZE - 1 && line != CRLF
    && line[|line| - 1] == '\n' && Free(line[..|line| - 1], {'\n'})
  }

  function Joined(lines: seq<string>): string {
    if lines == [] then "" else lines[0] + Joined(lines[1..])
  }

  function FieldsOf(lines: seq<string>): seq<Field> {
    if lines == [] then []
    else (if ParsedField(lines[0]).Some? then [ParsedField(lines[0]).value] else []) + FieldsOf(lines[1..])
  }

  lemma HeaderLineIsRead(req: Request, line: string, after: string)
    requires HeaderLine(line)
    ensures ReadFields(req, line + after) == ReadFields(WithField(req, line), after)
  {
    var body := line[..|line| - 1];
    assert line == body + "\n";
    LineLengthOf(body, after, LINE_BUFFER_SIZE - 1);
    assert (line + after)[..|line|] == line && (line + after)[|line|..] == after;
    hide ParsedField, WithField;
  }

  lemma JoinedPeel(lines: seq<string>, tail: string)
    requires lines != []
    ensures Joined(lines) + CRLF + tail == lines[0] + (Joined(lines[1..]) + CRLF + tail)
  {
    Regroup(lines[0], Joined(lines[1..]), CRLF, tail);
  }

  lemma FieldsRegroup(a: seq<Field>, b: seq<Field>, c: seq<Field>)
    ensures a + b + c == a + (b + c)
  {
  }

  lemma FieldsOfFirst(req: Request, lines: seq<string>)
    requires lines != []
    ensures WithField(req, lines[0]).fields + FieldsOf(lines[1..]) == req.fields + FieldsOf(lines)
    ensures WithField(req, lines[0]) == req.(fields := WithField(req, lines[0]).fields)
  {
    hide ParsedField;
    var first := if ParsedField(lines[0]).Some? then [ParsedField(lines[0]).value] else [];
    assert WithField(req, lines[0]).fields == req.fields + first;
    FieldsRegroup(req.fields, first, FieldsOf(lines[1..]));
  }

  lemma NoLinesAreRead(req: Request, tail: string)
    ensures ReadFields(req, Joined([]) + CRLF + tail) == (req.(fields := req.fields + FieldsOf([])), tail)
  {
    assert Joined([]) + CRLF + tail == CRLF + tail;
    BlankLineEnds(req, tail);
    assert req.fields + [] == req.fields;
  }

  /** The header ends at the first line that is just a carriage return and a line feed, and nowhere
      else: every line before it, a bare line feed too, is looked at for a field. */
  lemma {:induction false} BlankLineEndsHeader(req: Request, lines: seq<string>, tail: string)
    requires forall i :: 0 <= i < |lines| ==> HeaderLine(lines[i])
    ensures ReadFields(req, Joined(lines) + CRLF + tail) == (req.(fields := req.fields + FieldsOf(lines)), tail)
    decreases |lines|
  {
    hide ReadFields, HeaderLine, ParsedField, Joined, FieldsOf, WithField;
    if lines == [] {
      NoLinesAreRead(req, tail);
    } else {
      JoinedPeel(lines, tail);
      HeaderLineIsRead(req, lines[0], Joined(lines[1..]) + CRLF + tail);
      BlankLineEndsHeader(WithField(req, lines[0]), lines[1..], tail);
      FieldsOfFirst(req, lines);
    }
  }
}
