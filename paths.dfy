/**
 * Path resolution: how a `file:` parameter, a tiddler name and a format's
 * extension become the URL that is fetched on load and written on save.
 * The browser's location is an explicit parameter.
 */
module Paths {

  /** Index just after the last '/' of `s`, or 0 when it has none (`s.lastIndexOf('/') + 1`). */
  function FileNameStart(s: string): (k: nat)
    ensures k <= |s|
    ensures forall i :: k <= i < |s| ==> s[i] != '/'
    ensures k == 0 || s[k - 1] == '/'
  {
    if |s| == 0 then 0
    else if s[|s| - 1] == '/' then |s|
    else FileNameStart(s[..|s| - 1])
  }

  /** The segment after the last '/': the file name part of a path. */
  function FileName(s: string): string {
    s[FileNameStart(s)..]
  }

  /** The last-slash position is the only one with no '/' after it and a '/' (or nothing) before it. */
  lemma FileNameStartUnique(s: string, k: nat)
    requires k <= |s|
    requires forall i :: k <= i < |s| ==> s[i] != '/'
    requires k == 0 || s[k - 1] == '/'
    ensures FileNameStart(s) == k
  {
  }

  /** Appending text without '/' does not move the last '/'. */
  lemma FileNameStartAppend(s: string, x: string)
    requires '/' !in x
    ensures FileNameStart(s + x) == FileNameStart(s)
  {
    var k := FileNameStart(s);
    forall i | k <= i < |s + x|
      ensures (s + x)[i] != '/'
    {
      if i >= |s| {
        assert (s + x)[i] == x[i - |s|];
      }
    }
    FileNameStartUnique(s + x, k);
  }

  /** Behind a directory prefix (empty or ending in '/'), the last '/' is found in the rest. */
  lemma FileNameStartBehind(b: string, c: string)
    requires b == "" || b[|b| - 1] == '/'
    ensures FileNameStart(b + c) == |b| + FileNameStart(c)
  {
    var k := |b| + FileNameStart(c);
    forall i | k <= i < |b + c|
      ensures (b + c)[i] != '/'
    {
      assert (b + c)[i] == c[i - |b|];
    }
    if FileNameStart(c) == 0 {
      if b != "" {
        assert (b + c)[k - 1] == b[|b| - 1];
      }
    } else {
      assert (b + c)[k - 1] == c[FileNameStart(c) - 1];
    }
    FileNameStartUnique(b + c, k);
  }

  /**
   * The file-name completion of `getFullPath`: a bare name gets '.' and the
   * extension; a path ending in '/' (or an empty one) gets the fallback name,
   * '.' and the extension; a name that has a '.' is kept as it is.
   */
  function CompletePath(subPath: string, nameFallback: string, extension: string): string {
    var fileName := FileName(subPath);
    var withExtension := if fileName != "" && '.' !in fileName then subPath + "." + extension else subPath;
    if fileName == "" then withExtension + nameFallback + "." + extension else withExtension
  }

  /** The three completion cases, keyed on the segment after the last '/' only. */
  lemma CompletionCases(subPath: string, nameFallback: string, extension: string)
    ensures FileName(subPath) == "" ==> CompletePath(subPath, nameFallback, extension) == subPath + nameFallback + "." + extension
    ensures FileName(subPath) != "" && '.' !in FileName(subPath) ==> CompletePath(subPath, nameFallback, extension) == subPath + "." + extension
    ensures '.' in FileName(subPath) ==> CompletePath(subPath, nameFallback, extension) == subPath
  {
  }

  /** Appending text without '/' extends the file name segment and keeps the directory part. */
  lemma FileNameAppend(s: string, tail: string)
    requires '/' !in tail
    ensures FileNameStart(s + tail) == FileNameStart(s)
    ensures FileName(s + tail) == FileName(s) + tail
  {
    FileNameStartAppend(s, tail);
    var k := FileNameStart(s);
    assert (s + tail)[k..] == s[k..] + tail;
  }

  /** Behind a directory prefix (empty or ending in '/'), the file name is that of the rest. */
  lemma FileNameBehind(b: string, c: string)
    requires b == "" || b[|b| - 1] == '/'
    ensures FileName(b + c) == FileName(c)
  {
    FileNameStartBehind(b, c);
    assert (b + c)[|b| + FileNameStart(c)..] == c[FileNameStart(c)..];
  }

  /** Appending '.' and an extension without '/' extends the file name, which then holds a '.'. */
  lemma FileNameWithExtension(s: string, extension: string)
    requires '/' !in extension
    ensures FileNameStart(s + "." + extension) == FileNameStart(s)
    ensures FileName(s + "." + extension) == FileName(s) + "." + extension
    ensures '.' in FileName(s + "." + extension)
  {
    var tail := "." + extension;
    assert s + "." + extension == s + tail;
    assert FileName(s) + "." + extension == FileName(s) + tail;
    FileNameAppend(s, tail);
    assert (FileName(s) + tail)[|FileName(s)|] == '.';
  }

  /**
   * When the extension holds no '/', completion only appends: a named file
   * keeps its directory part, and a path with no file name gets the last
   * segment of the fallback name. The completed file name always holds a '.'.
   */
  lemma CompletedFileName(subPath: string, nameFallback: string, extension: string)
    requires '/' !in extension
    ensures subPath <= CompletePath(subPath, nameFallback, extension)
    ensures FileName(subPath) != "" ==>
      FileNameStart(CompletePath(subPath, nameFallback, extension)) == FileNameStart(subPath)
    ensures FileName(subPath) == "" ==>
      FileNameStart(CompletePath(subPath, nameFallback, extension)) == |subPath| + FileNameStart(nameFallback)
    ensures FileName(CompletePath(subPath, nameFallback, extension)) ==
      if FileName(subPath) == "" then FileName(nameFallback) + "." + extension
      else if '.' in FileName(subPath) then FileName(subPath)
      else FileName(subPath) + "." + extension
    ensures '.' in FileName(CompletePath(subPath, nameFallback, extension))
  {
    var fileName := FileName(subPath);
    var r := CompletePath(subPath, nameFallback, extension);
    CompletionCases(subPath, nameFallback, extension);
    if fileName == "" {
      EmptyFileNameCompleted(subPath, nameFallback, extension);
    } else if '.' !in fileName {
      assert r == subPath + "." + extension;
      FileNameWithExtension(subPath, extension);
    }
  }

  /** Completing a path with no file name: the fallback name's last segment follows the directory part. */
  lemma EmptyFileNameCompleted(subPath: string, nameFallback: string, extension: string)
    requires '/' !in extension && FileName(subPath) == ""
    ensures FileNameStart(subPath + nameFallback + "." + extension) == |subPath| + FileNameStart(nameFallback)
    ensures FileName(subPath + nameFallback + "." + extension) == FileName(nameFallback) + "." + extension
    ensures '.' in FileName(subPath + nameFallback + "." + extension)
  {
    assert FileNameStart(subPath) == |subPath|;
    var tail := nameFallback + "." + extension;
    assert subPath + nameFallback + "." + extension == subPath + tail;
    FileNameStartBehind(subPath, tail);
    FileNameBehind(subPath, tail);
    FileNameWithExtension(nameFallback, extension);
  }

  /** Completing an already completed path changes nothing. */
  lemma CompletionIdempotent(subPath: string, nameFallback: string, extension: string)
    requires '/' !in extension
    ensures CompletePath(CompletePath(subPath, nameFallback, extension), nameFallback, extension) ==
            CompletePath(subPath, nameFallback, extension)
  {
    CompletedFileName(subPath, nameFallback, extension);
  }

  /** `\w` of a JavaScript regular expression without the `u` flag. */
  predicate IsWordChar(c: char) {
    'a' <= c <= 'z' || 'A' <= c <= 'Z' || '0' <= c <= '9' || c == '_'
  }

  /** Length of the longest prefix of word characters. */
  function WordRun(s: string): (n: nat)
    ensures n <= |s|
    ensures forall i :: 0 <= i < n ==> IsWordChar(s[i])
    ensures n < |s| ==> !IsWordChar(s[n])
  {
    if |s| == 0 || !IsWordChar(s[0]) then 0 else 1 + WordRun(s[1..])
  }

  /** The word-run length is the only one with word characters before it and none at it. */
  lemma WordRunUnique(s: string, n: nat)
    requires n <= |s|
    requires forall i :: 0 <= i < n ==> IsWordChar(s[i])
    requires n < |s| ==> !IsWordChar(s[n])
    ensures WordRun(s) == n
  {
  }

  predicate StartsWithSlash(path: string) {
    |path| > 0 && path[0] == '/'
  }

  /** The regular expression `^\w+:` read literally: some word characters, then ':'. */
  ghost predicate SchemePrefix(path: string) {
    exists k :: 0 < k < |path| && path[k] == ':' && forall i :: 0 <= i < k ==> IsWordChar(path[i])
  }

  /** `isAbsolutePath`: a scheme or drive prefix (`^\w+:`), or a leading '/'. */
  predicate IsAbsolutePath(path: string) {
    var n := WordRun(path);
    (0 < n < |path| && path[n] == ':') || StartsWithSlash(path)
  }

  /** `isLocalAbsolutePath`: a drive letter (`^\w:`), a leading '/', or `file:`. */
  predicate IsLocalAbsolutePath(path: string) {
    (|path| >= 2 && IsWordChar(path[0]) && path[1] == ':') || StartsWithSlash(path) || "file:" <= path
  }

  /** `isAbsolutePath` holds exactly when `^\w+:` or `^\/` matches. */
  lemma AbsolutePathIsRegex(path: string)
    ensures IsAbsolutePath(path) <==> SchemePrefix(path) || StartsWithSlash(path)
  {
    var n := WordRun(path);
    if SchemePrefix(path) {
      var k :| 0 < k < |path| && path[k] == ':' && forall i :: 0 <= i < k ==> IsWordChar(path[i]);
      assert !IsWordChar(path[k]);
      assert n == k;
    }
  }

  /** Every path that is local absolute is absolute too. */
  lemma LocalAbsoluteIsAbsolute(path: string)
    ensures IsLocalAbsolutePath(path) ==> IsAbsolutePath(path)
  {
    AbsolutePathIsRegex(path);
    if |path| >= 2 && IsWordChar(path[0]) && path[1] == ':' {
      assert SchemePrefix(path) by {
        assert 0 < 1 < |path| && path[1] == ':' && forall i :: 0 <= i < 1 ==> IsWordChar(path[i]);
      }
    } else if "file:" <= path {
      assert SchemePrefix(path) by {
        assert path[..5] == "file:";
        assert 0 < 4 < |path| && path[4] == ':' && forall i :: 0 <= i < 4 ==> IsWordChar(path[i]);
      }
    }
  }

  /** The document's folder: the location up to and including its last '/'. */
  function Base(location: string): (b: string)
    ensures b <= location
    ensures b == "" || b[|b| - 1] == '/'
    ensures '/' !in location[|b|..]
  {
    var k := FileNameStart(location);
    assert forall i :: 0 <= i < |location[k..]| ==> location[k..][i] == location[k + i];
    location[..k]
  }

  /**
   * `getFullPath`: complete the file name, then return an absolute path as it
   * is and resolve a relative one against the document's folder.
   */
  function GetFullPath(subPath: string, nameFallback: string, extension: string, location: string): string {
    var completed := CompletePath(subPath, nameFallback, extension);
    if IsAbsolutePath(completed) then completed else Base(location) + completed
  }

  /**
   * The resolved path is the completed path, prefixed by the document's folder
   * exactly when it is relative; either way its file name is the completed one.
   */
  lemma FullPathResolution(subPath: string, nameFallback: string, extension: string, location: string)
    ensures var completed := CompletePath(subPath, nameFallback, extension);
      && (IsAbsolutePath(completed) ==> GetFullPath(subPath, nameFallback, extension, location) == completed)
      && (!IsAbsolutePath(completed) ==> GetFullPath(subPath, nameFallback, extension, location) == Base(location) + completed)
      && FileName(GetFullPath(subPath, nameFallback, extension, location)) == FileName(completed)
  {
    var completed := CompletePath(subPath, nameFallback, extension);
    if !IsAbsolutePath(completed) {
      var b := Base(location);
      FileNameStartBehind(b, completed);
      assert (b + completed)[|b| + FileNameStart(completed)..] == completed[FileNameStart(completed)..];
    }
  }

  /** Which sample paths `isAbsolutePath` accepts: a scheme, a drive letter, a leading '/', but not a relative path. */
  lemma AbsolutePathExamples()
    ensures IsAbsolutePath("http://x") && IsAbsolutePath("C:\\x") && IsAbsolutePath("/x")
    ensures !IsAbsolutePath("rel/x")
  {
    WordRunUnique("http://x", 4);
    WordRunUnique("C:\\x", 1);
    WordRunUnique("rel/x", 3);
  }

  /** Which sample paths `isLocalAbsolutePath` accepts: a drive letter, a leading '/' or `file:`, but not `http:`. */
  lemma LocalAbsolutePathExamples()
    ensures IsLocalAbsolutePath("C:\\x") && IsLocalAbsolutePath("/x") && IsLocalAbsolutePath("file:///x")
    ensures !IsLocalAbsolutePath("http://x") && !IsLocalAbsolutePath("rel/x")
  {
    assert "file:///x"[..5] == "file:";
    assert !("file:" <= "http://x") by {
      assert "http://x"[..5][0] != "file:"[0];
    }
    assert !("file:" <= "rel/x") by {
      assert "rel/x"[..5][0] != "file:"[0];
    }
  }

  /** An empty `file:` resolves to the tiddler name and the extension in the document's folder. */
  lemma ResolveEmptySpec(location: string)
    ensures GetFullPath("", "Foo", "txt", location) == Base(location) + "Foo.txt"
  {
    assert FileName("") == "";
    WordRunUnique("Foo.txt", 3);
  }

  /** A relative path with a bare file name gets the extension and the document's folder. */
  lemma ResolveBareName(location: string)
    ensures GetFullPath("sub/custom", "Bar", "txt", location) == Base(location) + "sub/custom.txt"
  {
    FileNameStartUnique("sub/custom", 4);
    assert FileName("sub/custom") == "custom" by {
      assert "sub/custom"[4..] == "custom";
    }
    assert '.' !in "custom";
    CompletionCases("sub/custom", "Bar", "txt");
    assert CompletePath("sub/custom", "Bar", "txt") == "sub/custom.txt";
    WordRunUnique("sub/custom.txt", 3);
  }

  /** A folder-only `file:` gets the tiddler name as file name. */
  lemma ResolveFolderOnly(location: string)
    ensures GetFullPath("../logs/", "MyLog", "txt", location) == Base(location) + "../logs/MyLog.txt"
  {
    FileNameStartUnique("../logs/", 8);
    assert FileName("../logs/") == "";
    WordRunUnique("../logs/MyLog.txt", 0);
  }

  /** A '.' in a folder name does not count as an extension. */
  lemma ResolveDottedFolder(location: string)
    ensures GetFullPath("v1.2/notes", "N", "txt", location) == Base(location) + "v1.2/notes.txt"
  {
    FileNameStartUnique("v1.2/notes", 5);
    assert FileName("v1.2/notes") == "notes" by {
      assert "v1.2/notes"[5..] == "notes";
    }
    assert '.' !in "notes";
    CompletionCases("v1.2/notes", "N", "txt");
    assert CompletePath("v1.2/notes", "N", "txt") == "v1.2/notes.txt";
    WordRunUnique("v1.2/notes.txt", 2);
  }

  /** An absolute path with its own extension is used as it is. */
  lemma ResolveAbsoluteWithExtension(nameFallback: string, location: string)
    ensures GetFullPath("/w/MyPlugin.js", nameFallback, "txt", location) == "/w/MyPlugin.js"
  {
    FileNameStartUnique("/w/MyPlugin.js", 3);
    assert FileName("/w/MyPlugin.js") == "MyPlugin.js";
    assert "MyPlugin.js"[8] == '.';
  }
}
