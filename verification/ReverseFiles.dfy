/**
 The part of sem1/lab3/task3_1/reverse.c that works on bytes and on names: blockwise copying from the
 end of a file, and reversing names in place.
 */
module ReverseFiles {

  newtype Byte = x: int | 0 <= x < 256

  const BUF_SIZE := 1024
  const FSEEK_ERROR := 2

  function Reversed<T>(s: seq<T>): (r: seq<T>)
    ensures |r| == |s|
    ensures forall i :: 0 <= i < |s| ==> r[i] == s[|s| - 1 - i]
  {
    seq(|s|, i requires 0 <= i < |s| => s[|s| - 1 - i])
  }

  lemma ReversedTwice<T>(s: seq<T>)
    ensures Reversed(Reversed(s)) == s
  {
    var r := Reversed(s);
    assert forall i :: 0 <= i < |s| ==> Reversed(r)[i] == r[|s| - 1 - i] == s[i];
  }

  lemma ReversedConcat<T>(a: seq<T>, b: seq<T>)
    ensures Reversed(a + b) == Reversed(b) + Reversed(a)
  {
  }

  /** What a file's copy holds: nothing for a file of exactly FSEEK_ERROR bytes, since its size is taken
      for the error code of fileSize. */
  function Copied(s: seq<Byte>): seq<Byte> {
    if |s| == FSEEK_ERROR then [] else Reversed(s)
  }

  /** The copy is the reversed file for every size but two. */
  lemma CopiedIsReversedIff(s: seq<Byte>)
    ensures Copied(s) == Reversed(s) <==> |s| != 2
  {
    if |s| == 2 {
      assert |Copied(s)| == 0 && |Reversed(s)| == 2;
    }
  }

  lemma CopiedTwiceIff(s: seq<Byte>)
    ensures Copied(Copied(s)) == s <==> |s| != 2
  {
    ReversedTwice(s);
    if |s| == 2 {
      assert Copied(Copied(s)) == [];
    }
  }

  /** An open file: fseek moves the position, fread and fwrite advance it. */
  class Stream {
    var content: seq<Byte>
    var pos: nat

    constructor (bytes: seq<Byte>)
      ensures content == bytes && pos == 0
    {
      content, pos := bytes, 0;
    }

    method Seek(to: nat)
      modifies this`pos
      ensures pos == to
    {
      pos := to;
    }

    method Read(buffer: array<Byte>, count: nat)
      requires count <= buffer.Length && pos + count <= |content|
      modifies this`pos, buffer
      ensures buffer[..count] == content[old(pos)..old(pos) + count]
      ensures pos == old(pos) + count
    {
      forall i | 0 <= i < count {
        buffer[i] := content[pos + i];
      }
      pos := pos + count;
    }

    method Write(buffer: array<Byte>, count: nat)
      requires count <= buffer.Length && pos == |content|
      modifies this
      ensures content == old(content) + buffer[..count] && pos == |content|
    {
      content := content + buffer[..count];
      pos := |content|;
    }
  }

  method FileSize(f: Stream) returns (size: nat)
    modifies f`pos
    ensures size == |f.content| && f.pos == 0
  {
    f.Seek(|f.content|);
    size := f.pos;
    f.Seek(0);
  }

  /** The swap loop on the first `count` bytes of the buffer. */
  method ReverseBlock(buffer: array<Byte>, count: nat)
    requires count <= buffer.Length
    modifies buffer
    ensures buffer[..count] == Reversed(old(buffer[..count]))
    ensures buffer[count..] == old(buffer[count..])
  {
    for i := 0 to count / 2
      invariant forall k :: 0 <= k < i ==>
        buffer[k] == old(buffer[count - 1 - k]) && buffer[count - 1 - k] == old(buffer[k])
      invariant forall k :: i <= k < count - i || count <= k < buffer.Length ==> buffer[k] == old(buffer[k])
    {
      var tmp := buffer[i];
      buffer[i] := buffer[count - i - 1];
      buffer[count - i - 1] := tmp;
    }
  }

  /** Blocks are read from the end of the source and written, each reversed, in the order read. */
  method CopyContent(source: Stream, destination: Stream)
    requires source != destination && destination.pos == |destination.content|
    modifies source`pos, destination
    ensures |source.content| != 2 ==> destination.content == old(destination.content) + Reversed(source.content)
    ensures |source.content| == 2 ==> destination.content == old(destination.content)
  {
    hide Reversed;
    var size := FileSize(source);
    if size == FSEEK_ERROR {
      return;
    }
    var buffer := new Byte[BUF_SIZE];
    var remaining := size;
    assert source.content[remaining..] == [];
    while remaining > 0
      invariant 0 <= remaining <= size == |source.content|
      invariant destination.pos == |destination.content|
      invariant destination.content == old(destination.content) + Reversed(source.content[remaining..])
    {
      var toRead := if remaining >= BUF_SIZE then BUF_SIZE else remaining;
      var pos := remaining - toRead;
      source.Seek(pos);
      source.Read(buffer, toRead);
      ReverseBlock(buffer, toRead);
      ghost var block := source.content[pos..remaining];
      ghost var done := source.content[remaining..];
      assert source.content[pos..] == block + done;
      ReversedConcat(block, done);
      destination.Write(buffer, toRead);
      remaining := remaining - toRead;
    }
    assert source.content[0..] == source.content;
  }

  // ------------------------------------------------------------ names

  method CreateReverseName(fileName: string, reverseName: array<char>)
    requires |fileName| <= reverseName.Length
    modifies reverseName
    ensures reverseName[..|fileName|] == Reversed(fileName)
    ensures reverseName[|fileName|..] == old(reverseName[|fileName|..])
  {
    for i := 0 to |fileName|
      invariant forall k :: 0 <= k < i ==> reverseName[k] == fileName[|fileName| - 1 - k]
      invariant forall k :: |fileName| <= k < reverseName.Length ==> reverseName[k] == old(reverseName[k])
    {
      reverseName[i] := fileName[|fileName| - 1 - i];
    }
  }

  /** The last index up to `k` that holds a slash, or 0. */
  function LastSlash(path: string, k: nat): (j: nat)
    requires k <= |path|
    ensures j <= k && (j == 0 || (j < |path| && path[j] == '/'))
    ensures forall i :: j < i <= k && i < |path| ==> path[i] != '/'
  {
    if k == 0 || (k < |path| && path[k] == '/') then k else LastSlash(path, k - 1)
  }

  /** The path whose last component is reversed. */
  function ReversedPath(path: string): (r: string)
    requires path != ""
    ensures |r| == |path|
  {
    var k := LastSlash(path, |path|);
    path[..k + 1] + Reversed(path[k + 1..])
  }

  method ReverseDirName(srcPath: string, reversedPath: array<char>, pathLen: nat, lastSlash: nat)
    requires lastSlash < pathLen == |srcPath| < reversedPath.Length
    modifies reversedPath
    ensures reversedPath[..pathLen] == srcPath[..lastSlash + 1] + Reversed(srcPath[lastSlash + 1..])
    ensures reversedPath[pathLen] == '\0'
  {
    var reversedName := new char[pathLen - lastSlash];
    var i, j := pathLen - 1, 0;
    while i > lastSlash
      invariant lastSlash <= i < pathLen && j == pathLen - 1 - i
      invariant forall k :: 0 <= k < j ==> reversedName[k] == srcPath[pathLen - 1 - k]
    {
      reversedName[j] := srcPath[i];
      i, j := i - 1, j + 1;
    }
    reversedName[pathLen - lastSlash - 1] := '\0';
    forall k | 0 <= k < lastSlash + 1 {
      reversedPath[k] := srcPath[k];
    }
    forall k | 0 <= k < pathLen - lastSlash {
      reversedPath[lastSlash + 1 + k] := reversedName[k];
    }
  }

  /** The naming half of reverseDir: where its scan for the last slash stops, and what it makes of it. */
  method NameReversedDir(srcPath: string) returns (reversedPath: string)
    requires srcPath != ""
    ensures reversedPath == ReversedPath(srcPath)
  {
    var pathLen := |srcPath|;
    var lastSlash := pathLen;
    while lastSlash > 0 && (lastSlash == pathLen || srcPath[lastSlash] != '/')
      invariant 0 <= lastSlash <= pathLen
      invariant LastSlash(srcPath, pathLen) == LastSlash(srcPath, lastSlash)
    {
      lastSlash := lastSlash - 1;
    }
    var buffer := new char[pathLen + 1];
    ReverseDirName(srcPath, buffer, pathLen, lastSlash);
    reversedPath := buffer[..pathLen];
  }

  lemma LastSlashIs(path: string, j: nat, k: nat)
    requires j <= k <= |path| && j < |path| && path[j] == '/'
    requires forall i :: j < i < |path| ==> path[i] != '/'
    ensures LastSlash(path, k) == j
  {
  }

  /** Of a directory in a parent, the name is reversed and the parent is kept. */
  lemma ReversedPathReversesName(parent: string, name: string)
    requires '/' !in name
    ensures ReversedPath(parent + "/" + name) == parent + "/" + Reversed(name)
  {
    var path := parent + "/" + name;
    assert forall i :: |parent| < i < |path| ==> path[i] == name[i - |parent| - 1];
    LastSlashIs(path, |parent|, |path|);
    assert path[..|parent| + 1] == parent + "/" && path[|parent| + 1..] == name;
  }

  lemma NoSlashInReversed(name: string)
    requires '/' !in name
    ensures '/' !in Reversed(name)
  {
  }

  lemma SlashlessReversedPath(path: string)
    requires path != "" && '/' !in path
    ensures ReversedPath(path) == path[..1] + Reversed(path[1..])
  {
    var k := LastSlash(path, |path|);
    assert k < |path| && path[k] == '/' ==> '/' in path;
  }

  /** A path without any slash keeps its first character, as if that were one. */
  lemma SlashlessPathTwice(path: string)
    requires path != "" && '/' !in path
    ensures ReversedPath(ReversedPath(path)) == path
  {
    var name := path[1..];
    NoSlashInReversed(name);
    var other := path[..1] + Reversed(name);
    assert '/' !in other;
    SlashlessReversedPath(path);
    SlashlessReversedPath(other);
    assert other[..1] == path[..1] && other[1..] == Reversed(name);
    ReversedTwice(name);
    hide *;
  }

  lemma ReversedPathTwice(path: string)
    requires path != ""
    ensures ReversedPath(ReversedPath(path)) == path
  {
    var k := LastSlash(path, |path|);
    if path[k] == '/' {
      var parent, name := path[..k], path[k + 1..];
      assert path == parent + "/" + name;
      NoSlashInReversed(name);
      ReversedPathReversesName(parent, name);
      ReversedPathReversesName(parent, Reversed(name));
      ReversedTwice(name);
    } else {
      SlashlessPathTwice(path);
    }
  }
}
