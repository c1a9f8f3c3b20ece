/**
 The proxy's request printer and parser.  Strings stand for C strings: no character is NUL.
 A socket to read from is the sequence of bytes that will arrive before it is closed.
 */
module HttpMessages {

  datatype Option<+T> = None | Some(value: T)

  datatype Version = Http10 | Http11 | InvalidVersion

  datatype Field = Field(key: string, value: string)

  /** `verb` is an index into METHODS; a request that was cut short has no path. */
  datatype Request = Request(verb: nat, version: Version, path: Option<string>, fields: seq<Field>)

  const METHODS: seq<string> :=
    ["OPTIONS", "GET", "HEAD", "POST", "PUT", "DELETE", "TRACE", "CONNECT", "INVALID"]
  const GET: nat := 1
  const LINE_BUFFER_SIZE: nat := 8192
  const CRLF := "\r\n"

  // ------------------------------------------------------------ string.h

  /** The index of the first character from `delims`, or the length. */
  function FirstOf(s: string, delims: set<char>): (k: nat)
    ensures k <= |s|
    ensures forall i :: 0 <= i < k ==> s[i] !in delims
    ensures k < |s| ==> s[k] in delims
  {
    if s == [] || s[0] in delims then 0 else 1 + FirstOf(s[1..], delims)
  }

  /** strsep: the token before the first delimiter, and what follows it, if there is one. */
  function Strsep(s: string, delims: set<char>): (string, Option<string>) {
    var k := FirstOf(s, delims);
    (s[..k], if k < |s| then Some(s[k + 1..]) else None)
  }

  /** Drops leading occurrences of `c`. */
  function SkipChar(s: string, c: char): string {
    if s != [] && s[0] == c then SkipChar(s[1..], c) else s
  }

  /** strtok_r with one delimiter: no token if only delimiters are left. */
  function Strtok(s: string, c: char): (Option<string>, string) {
    var r := SkipChar(s, c);
    if r == [] then (None, [])
    else
      var k := FirstOf(r, {c});
      (Some(r[..k]), if k < |r| then r[k + 1..] else [])
  }

  function StartsWith(s: string, p: string): bool {
    |p| <= |s| && s[..|p|] == p
  }

  // ------------------------------------------------------------ parsing

  /** The index of a method name, or the number of names. */
  function MethodIndex(token: string, names: seq<string>): (i: nat)
    ensures i <= |names|
  {
    if names == [] || names[0] == token then 0 else 1 + MethodIndex(token, names[1..])
  }

  function VersionOf(token: string): Version {
    if StartsWith(token, "HTTP/1.0") then Http10
    else if StartsWith(token, "HTTP/1.1") then Http11
    else InvalidVersion
  }

  const SEPARATORS := {' ', '\r', '\n'}

  /** What parse_method still makes of the rest of the first line, by the state it is in: 0 when it
      expects the method, 1 the URL, 2 the version. */
  function ParsedFrom(state: nat, req: Request, rest: Option<string>): Request
    decreases 3 - state
  {
    if rest.None? || state >= 3 then req
    else
      var (token, more) := Strsep(rest.value, SEPARATORS);
      if state == 0 then
        var i := MethodIndex(token, METHODS);
        if i == |METHODS| then req.(verb := |METHODS| - 1) else ParsedFrom(1, req.(verb := i), more)
      else if state == 1 then ParsedFrom(2, req.(path := Some(token)), more)
      else req.(version := VersionOf(token))
  }

  function ParsedLine(req: Request, line: string): Request {
    ParsedFrom(0, req, Some(line))
  }

  /** Splits the first line into method, path and version. */
  method ParseMethod(req: Request, line: string) returns (result: Request)
    ensures result == ParsedLine(req, line)
  {
    result := req;
    var pointer := Some(line);
    var state := 0;
    while pointer.Some?
      invariant 0 <= state <= 3 && ParsedLine(req, line) == ParsedFrom(state, result, pointer)
      decreases if pointer.Some? then 1 + |pointer.value| else 0
    {
      var (token, rest) := Strsep(pointer.value, SEPARATORS);
      pointer := rest;
      if state == 0 {
        var i := MethodIndex(token, METHODS);
        if i == |METHODS| {
          result := result.(verb := |METHODS| - 1);
          return;
        }
        result := result.(verb := i);
        state := state + 1;
      } else if state == 1 {
        result := result.(path := Some(token));
        state := state + 1;
      } else if state == 2 {
        result := result.(version := VersionOf(token));
        state := state + 1;
      } else {
        break;
      }
    }
  }

  /** What parse_metadata makes of a header line: at most one field. */
  function ParsedField(line: string): Option<Field> {
    var (key, rest) := Strtok(line, ':');
    if key.None? then None
    else
      var (value, _) := Strtok(rest, '\r');
      if value.None? then None else Some(Field(key.value, SkipChar(value.value, ' ')))
  }

  function WithField(req: Request, line: string): Request {
    match ParsedField(line)
    case None => req
    case Some(f) => req.(fields := req.fields + [f])
  }

  method ParseMetadata(req: Request, line: string) returns (result: Request)
    ensures result == WithField(req, line)
  {
    var (key, rest) := Strtok(line, ':');
    if key.None? {
      return req;
    }
    var (value, save) := Strtok(rest, '\r');
    if value.None? {
      return req;
    }
    var v := value.value;
    while v != [] && v[0] == ' '
      invariant SkipChar(v, ' ') == SkipChar(value.value, ' ')
      decreases |v|
    {
      v := v[1..];
    }
    result := req.(fields := req.fields + [Field(key.value, v)]);
  }

  // ------------------------------------------------------------ reading

  /** The bytes that read_line takes: up to and including a line feed, at most `room` of them. */
  function LineLength(stream: string, room: nat): (k: nat)
    ensures k <= |stream| && k <= room
    decreases room
  {
    if room == 0 || stream == [] then 0
    else if stream[0] == '\n' then 1
    else 1 + LineLength(stream[1..], room - 1)
  }

  /** Reads byte by byte into a buffer of `maxLen` bytes, the last of which is for the NUL. */
  method ReadLine(stream: string, maxLen: nat) returns (line: string, rest: string)
    requires maxLen > 0
    ensures line == stream[..LineLength(stream, maxLen - 1)]
    ensures rest == stream[LineLength(stream, maxLen - 1)..]
  {
    line, rest := [], stream;
    while |line| + 1 < maxLen
      invariant |line| + 1 <= maxLen && line + rest == stream
      invariant LineLength(stream, maxLen - 1) == |line| + LineLength(rest, maxLen - 1 - |line|)
      decreases maxLen - |line|
    {
      if rest == [] {
        break;
      }
      var byte := rest[0];
      line, rest := line + [byte], rest[1..];
      if byte == '\n' {
        return;
      }
    }
  }

  /** The header lines of a stream, added to a request; and what is left to read. */
  function ReadFields(req: Request, stream: string): (Request, string)
    decreases |stream|
  {
    var k := LineLength(stream, LINE_BUFFER_SIZE - 1);
    if k == 0 then (req, stream)
    else if stream[..k] == CRLF then (req, stream[k..])
    else ReadFields(WithField(req, stream[..k]), stream[k..])
  }

  /** What read_header finds; `version` is what the uninitialised field happens to hold. */
  function Header(stream: string, version: Version): (Option<Request>, string) {
    var k := LineLength(stream, LINE_BUFFER_SIZE - 1);
    if k == 0 then (None, stream)
    else
      var (r, rest) := ReadFields(ParsedLine(Request(0, version, None, []), stream[..k]), stream[k..]);
      (Some(r), rest)
  }

  /** The loop of read_header over the header lines. */
  method ReadFieldLines(req: Request, stream: string) returns (request: Request, left: string)
    ensures (request, left) == ReadFields(req, stream)
  {
    request, left := req, stream;
    while true
      invariant ReadFields(req, stream) == ReadFields(request, left)
      decreases |left|
    {
      var line, rest := ReadLine(left, LINE_BUFFER_SIZE);
      if |line| <= 0 {
        break;
      }
      if line == CRLF {
        left := rest;
        break;
      }
      left := rest;
      request := ParseMetadata(request, line);
    }
  }

  method ReadHeader(stream: string, version: Version) returns (req: Option<Request>, rest: string)
    ensures (req, rest) == Header(stream, version)
  {
    var request := Request(0, version, None, []);
    var line, left := ReadLine(stream, LINE_BUFFER_SIZE);
    if |line| <= 0 {
      return None, left;
    }
    request := ParseMethod(request, line);
    request, left := ReadFieldLines(request, left);
    return Some(request), left;
  }

  // ------------------------------------------------------------ printing

  /** strstr for "//": the index of the first occurrence, or the length. */
  function DoubleSlash(s: string): (k: nat)
    ensures k <= |s|
    ensures k < |s| ==> k + 1 < |s| && s[k] == '/' && s[k + 1] == '/'
  {
    if |s| < 2 then |s|
    else if s[0] == '/' && s[1] == '/' then 0
    else 1 + DoubleSlash(s[1..])
  }

  /** The path of an absolute URI; anything else, a bare path included, becomes "/". */
  function ExtractUri(path: string): string {
    var k := DoubleSlash(path);
    if k == |path| then "/"
    else
      var after := path[k + 2..];
      var j := FirstOf(after, {'/'});
      if j == |after| then "/" else after[j..]
  }

  /** The proxy forwards neither of these. */
  predicate Dropped(f: Field) {
    f.key == "Connection" || f.key == "Proxy-Connection"
  }

  function Kept(fields: seq<Field>): seq<Field> {
    if fields == [] then []
    else (if Dropped(fields[0]) then [] else [fields[0]]) + Kept(fields[1..])
  }

  function FieldLine(f: Field): string {
    f.key + ": " + f.value + CRLF
  }

  function FieldLines(fields: seq<Field>): string {
    if fields == [] then [] else FieldLine(fields[0]) + FieldLines(fields[1..])
  }

  function StartLine(uri: string, version: Version): string {
    "GET " + uri + VersionText(version)
  }

  /** The fields that the printer adds of its own. */
  function Closing(version: Version): seq<Field> {
    if version.Http11? then [Field("Connection", "close")] else []
  }

  function Printed(req: Request): string
    requires req.path.Some? && !req.version.InvalidVersion?
  {
    StartLine(ExtractUri(req.path.value), req.version) + FieldLines(Kept(req.fields) + Closing(req.version)) + CRLF
  }

  lemma {:induction false} FieldLinesConcat(xs: seq<Field>, ys: seq<Field>)
    ensures FieldLines(xs + ys) == FieldLines(xs) + FieldLines(ys)
    decreases |xs|
  {
    if xs == [] {
      assert xs + ys == ys;
    } else {
      assert (xs + ys)[0] == xs[0] && (xs + ys)[1..] == xs[1..] + ys;
      FieldLinesConcat(xs[1..], ys);
    }
  }

  lemma {:induction false} KeptSnoc(fields: seq<Field>, f: Field)
    ensures Kept(fields + [f]) == Kept(fields) + (if Dropped(f) then [] else [f])
    decreases |fields|
  {
    if fields == [] {
      assert fields + [f] == [f] && [f][1..] == [];
    } else {
      assert (fields + [f])[0] == fields[0] && (fields + [f])[1..] == fields[1..] + [f];
      KeptSnoc(fields[1..], f);
    }
  }

  lemma OneLine(f: Field)
    ensures FieldLines([f]) == FieldLine(f)
  {
    assert [f][1..] == [];
  }

  lemma LinesOfPrefix(fields: seq<Field>, i: nat)
    requires i < |fields|
    ensures FieldLines(Kept(fields[..i + 1])) ==
      FieldLines(Kept(fields[..i])) + if Dropped(fields[i]) then [] else FieldLine(fields[i])
  {
    var before := Kept(fields[..i]);
    assert fields[..i + 1] == fields[..i] + [fields[i]];
    KeptSnoc(fields[..i], fields[i]);
    if Dropped(fields[i]) {
      assert before + [] == before;
    } else {
      FieldLinesConcat(before, [fields[i]]);
      OneLine(fields[i]);
    }
  }

  lemma ClosingLine(version: Version)
    ensures FieldLines(Closing(version)) == if version.Http11? then CLOSE_LINE else ""
  {
    if version.Http11? {
      OneLine(Field("Connection", "close"));
    }
  }

  lemma ConcatAssoc(a: string, b: string, c: string)
    ensures a + (b + c) == a + b + c
  {
  }

  /** Four appends in a row append one field line. */
  lemma AppendsFieldLine(text: string, f: Field)
    ensures text + f.key + ": " + f.value + CRLF == text + FieldLine(f)
  {
    ConcatAssoc(text, f.key + ": " + f.value, CRLF);
    ConcatAssoc(text, f.key + ": ", f.value);
    ConcatAssoc(text, f.key, ": ");
  }

  /** The first pass over the header fields. */
  method MeasureFields(fields: seq<Field>, size0: int) returns (size: int)
    ensures size == size0 + |FieldLines(Kept(fields))|
  {
    size := size0;
    var i := 0;
    while i < |fields|
      invariant 0 <= i <= |fields| && size == size0 + |FieldLines(Kept(fields[..i]))|
    {
      LinesOfPrefix(fields, i);
      var item := fields[i];
      if !(item.key == "Connection" || item.key == "Proxy-Connection") {
        size := size + |item.key| + 2 + |item.value| + 2;
      }
      i := i + 1;
    }
    assert fields[..|fields|] == fields;
  }

  /** The second pass over the header fields. */
  method WriteFields(fields: seq<Field>, text0: string) returns (text: string)
    ensures text == text0 + FieldLines(Kept(fields))
  {
    text := text0;
    var i := 0;
    while i < |fields|
      invariant 0 <= i <= |fields| && text == text0 + FieldLines(Kept(fields[..i]))
    {
      LinesOfPrefix(fields, i);
      var item := fields[i];
      if !(item.key == "Connection" || item.key == "Proxy-Connection") {
        AppendsFieldLine(text, item);
        ConcatAssoc(text0, FieldLines(Kept(fields[..i])), FieldLine(item));
        text := text + item.key;
        text := text + ": ";
        text := text + item.value;
        text := text + CRLF;
      }
      i := i + 1;
    }
    assert fields[..|fields|] == fields;
  }

  /** The end of the first line. */
  function VersionText(version: Version): string {
    if version.Http10? then " HTTP/1.0\r\n" else " HTTP/1.1\r\n"
  }

  const CLOSE_LINE := "Connection: close\r\n"

  /** The order of writing is immaterial to what is written. */
  lemma PrintedInParts(req: Request)
    requires req.path.Some? && !req.version.InvalidVersion?
    ensures var start := "GET " + ExtractUri(req.path.value) + VersionText(req.version);
      var fields := FieldLines(Kept(req.fields));
      Printed(req) == start + fields + (if req.version.Http11? then CLOSE_LINE else "") + CRLF
  {
    ClosingLine(req.version);
    FieldLinesConcat(Kept(req.fields), Closing(req.version));
    ConcatAssoc(StartLine(ExtractUri(req.path.value), req.version), FieldLines(Kept(req.fields)),
                FieldLines(Closing(req.version)));
  }

  /** Measures the request in one pass and writes it in another; the length handed out is that of
      the text written. */
  method BuildRequest(req: Request) returns (buffer: Option<string>, length: int)
    requires req.path.Some?
    ensures buffer.Some? <==> !req.version.InvalidVersion?
    ensures buffer.Some? ==> buffer.value == Printed(req) && length == |buffer.value|
  {
    if req.version.InvalidVersion? {
      return None, 0;
    }
    var uri := ExtractUri(req.path.value);
    var size := 4 + |uri| + |VersionText(req.version)|;
    size := MeasureFields(req.fields, size);
    if req.version == Http11 {
      size := size + |CLOSE_LINE|;
    }
    size := size + 2;

    var text := "GET ";
    text := text + uri;
    text := text + VersionText(req.version);
    text := WriteFields(req.fields, text);
    if req.version == Http11 {
      text := text + CLOSE_LINE;
    }
    text := text + CRLF;
    PrintedInParts(req);
    buffer, length := Some(text), size;
  }
}
