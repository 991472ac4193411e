/**
 * xxx::file: read_whole and read_lines over the file system value.
 */
module Files {
  import opened Wrappers
  import opened FileSystem

  /** The exceptions of read_whole and read_lines. */
  datatype FileError = InvalidArgument | IoFailure

  /** The C string a buffer denotes: its characters before the first NUL. */
  function UpToNul(s: string): (r: string)
    ensures |r| <= |s| && r == s[..|r|]
    ensures forall k :: 0 <= k < |r| ==> r[k] != '\0'
    ensures |r| < |s| ==> s[|r|] == '\0'
  {
    if s == [] || s[0] == '\0' then [] else [s[0]] + UpToNul(s[1..])
  }

  /** The three ensures of UpToNul single out its result. */
  lemma {:induction false} UpToNulUnique(s: string, r: string)
    requires |r| <= |s| && r == s[..|r|]
    requires forall k :: 0 <= k < |r| ==> r[k] != '\0'
    requires |r| < |s| ==> s[|r|] == '\0'
    ensures r == UpToNul(s)
    decreases |s|
  {
    if r != [] {
      assert s[0] == r[0] != '\0';
      UpToNulUnique(s[1..], r[1..]);
      assert r == [s[0]] + r[1..];
    }
  }

  /**
   * read_whole(path): invalid_argument when nothing exists at path, "" for
   * an empty file, an I/O failure when the file cannot be opened, and
   * otherwise the contents up to the first NUL.
   */
  function ReadWholeSpec(fs: Fs, path: string): Result<string, FileError> {
    if path !in fs.files then Failure(InvalidArgument)
    else if fs.files[path] == "" then Success("")
    else if path in fs.denied then Failure(IoFailure)
    else Success(UpToNul(fs.files[path]))
  }

  /** read_whole: copy the stream into a buffer, append a NUL, and return the C string at its start. */
  method ReadWhole(fs: Fs, path: string) returns (r: Result<string, FileError>)
    ensures r == ReadWholeSpec(fs, path)
  {
    if path !in fs.files {
      return Failure(InvalidArgument);
    }
    var contents := fs.files[path];
    if |contents| == 0 {
      return Success("");
    }
    if path in fs.denied {
      return Failure(IoFailure);
    }
    var buffer: seq<char> := [];
    var i := 0;
    while i < |contents|
      invariant 0 <= i <= |contents|
      invariant buffer == contents[..i]
    {
      buffer := buffer + [contents[i]];
      i := i + 1;
    }
    buffer := buffer + ['\0'];
    var n := 0;
    while buffer[n] != '\0'
      invariant 0 <= n <= |contents|
      invariant forall k :: 0 <= k < n ==> buffer[k] != '\0'
      decreases |contents| - n
    {
      n := n + 1;
    }
    assert buffer[..n] == contents[..n];
    UpToNulUnique(contents, buffer[..n]);
    return Success(buffer[..n]);
  }

  /** The index of the first '\n', or the length when there is none. */
  function LineEnd(s: string): (i: nat)
    ensures i <= |s|
    ensures forall k :: 0 <= k < i ==> s[k] != '\n'
    ensures i < |s| ==> s[i] == '\n'
  {
    if s == [] || s[0] == '\n' then 0 else 1 + LineEnd(s[1..])
  }

  /** The lines std::getline extracts from a string, one per call until it fails. */
  function Lines(s: string): (r: seq<string>)
    ensures r == [] <==> s == ""
    decreases |s|
  {
    if s == "" then []
    else
      var i := LineEnd(s);
      if i == |s| then [s] else [s[..i]] + Lines(s[i + 1..])
  }

  /** The lines joined with '\n'. */
  function JoinLines(lines: seq<string>): string {
    if lines == [] then ""
    else if |lines| == 1 then lines[0]
    else lines[0] + "\n" + JoinLines(lines[1..])
  }

  /** Joining a line in front of further lines puts one '\n' between them. */
  lemma JoinCons(line: string, rest: seq<string>)
    requires rest != []
    ensures JoinLines([line] + rest) == line + "\n" + JoinLines(rest)
  {
    assert ([line] + rest)[1..] == rest;
  }

  /** No line holds a '\n'. */
  lemma {:induction false} LinesHaveNoNewline(s: string)
    ensures forall i, k :: 0 <= i < |Lines(s)| && 0 <= k < |Lines(s)[i]| ==> Lines(s)[i][k] != '\n'
    decreases |s|
  {
    if s != "" {
      var e := LineEnd(s);
      if e < |s| {
        LinesHaveNoNewline(s[e + 1..]);
        var rest := Lines(s[e + 1..]);
        assert Lines(s) == [s[..e]] + rest;
        forall i, k | 0 <= i < |Lines(s)| && 0 <= k < |Lines(s)[i]| ensures Lines(s)[i][k] != '\n' {
          if i > 0 {
            assert Lines(s)[i] == rest[i - 1];
          }
        }
      }
    }
  }

  /** The '\n' a text ends with, if it ends with one. */
  function FinalNewline(s: string): string {
    if s != "" && s[|s| - 1] == '\n' then "\n" else ""
  }

  /**
   * Joining the lines with '\n', and adding a '\n' exactly when the text
   * ended with one, gives the text back: nothing but the line ends is lost,
   * and a final '\n' adds no empty line.
   */
  lemma {:induction false} LinesRoundTrip(s: string)
    ensures JoinLines(Lines(s)) + FinalNewline(s) == s
    decreases |s|
  {
    if s != "" {
      var e := LineEnd(s);
      var line := s[..e];
      if e == |s| {
        assert Lines(s) == [s];
      } else {
        var t := s[e + 1..];
        assert s == line + "\n" + t;
        if t == "" {
          assert Lines(s) == [line];
          assert FinalNewline(s) == "\n";
        } else {
          var rest := Lines(t);
          calc {
            JoinLines(Lines(s)) + FinalNewline(s);
            { LinesFront(s, t); }
            JoinLines([line] + rest) + FinalNewline(s);
            { JoinCons(line, rest); assert t[|t| - 1] == s[|s| - 1]; }
            (line + "\n" + JoinLines(rest)) + FinalNewline(t);
            line + "\n" + (JoinLines(rest) + FinalNewline(t));
            { LinesRoundTrip(t); }
            line + "\n" + t;
          }
        }
      }
    }
  }

  /** A text whose first line ends in a '\n' followed by more text: that line, then the rest's lines. */
  lemma LinesFront(s: string, t: string)
    requires s != "" && LineEnd(s) < |s| && t == s[LineEnd(s) + 1..] && t != ""
    ensures Lines(t) != [] && Lines(s) == [s[..LineEnd(s)]] + Lines(t)
  {
    if LineEnd(t) == |t| {} else {}
  }

  /** read_lines of an empty file is empty, and a final newline adds no empty line. */
  lemma EmptyAndTerminated()
    ensures Lines("") == []
    ensures Lines("a\n") == ["a"]
  {
    assert LineEnd("a\n") == 1;
    assert "a\n"[..1] == "a" && "a\n"[2..] == "";
  }

  /** An unterminated last line is kept. */
  lemma UnterminatedLastLine()
    ensures Lines("a\nb") == ["a", "b"]
  {
    assert LineEnd("b") == 1;
    assert LineEnd("a\nb") == 1;
    assert "a\nb"[..1] == "a" && "a\nb"[2..] == "b";
  }

  /** One getline call: the line runs from pos up to the next '\n' (at j) or the end. */
  lemma LinesStep(file: string, pos: nat, j: nat)
    requires pos < |file| && pos <= j <= |file|
    requires forall k :: pos <= k < j ==> file[k] != '\n'
    requires j < |file| ==> file[j] == '\n'
    ensures Lines(file[pos..]) == [file[pos..j]] + (if j < |file| then Lines(file[j + 1..]) else [])
  {
    var rest := file[pos..];
    var e := LineEnd(rest);
    assert e == j - pos;
    assert rest[..e] == file[pos..j];
    if j < |file| {
      assert rest[e + 1..] == file[j + 1..];
      assert Lines(rest) == [rest[..e]] + Lines(rest[e + 1..]);
    } else {
      assert rest == file[pos..j];
      assert Lines(rest) == [rest];
    }
  }

  /** read_lines(path): read_whole's text split into lines. */
  function ReadLinesSpec(fs: Fs, path: string): Result<seq<string>, FileError> {
    match ReadWholeSpec(fs, path)
    case Failure(e) => Failure(e)
    case Success(text) => Success(Lines(text))
  }

  /** One std::getline call from pos: the index of the next '\n', or the end of the text. */
  method GetLine(file: string, pos: nat) returns (j: nat)
    requires pos <= |file|
    ensures pos <= j <= |file|
    ensures forall k :: pos <= k < j ==> file[k] != '\n'
    ensures j < |file| ==> file[j] == '\n'
  {
    j := pos;
    while j < |file| && file[j] != '\n'
      invariant pos <= j <= |file|
      invariant forall k :: pos <= k < j ==> file[k] != '\n'
    {
      j := j + 1;
    }
  }

  /** read_lines: read the whole file, then collect getline's results. */
  method ReadLines(fs: Fs, path: string) returns (r: Result<seq<string>, FileError>)
    ensures r == ReadLinesSpec(fs, path)
  {
    var whole := ReadWhole(fs, path);
    if whole.Failure? {
      return Failure(whole.error);
    }
    var file := whole.value;
    if file == "" {
      return Success([]);
    }
    var lines: seq<string> := [];
    var pos := 0;
    while pos < |file|
      invariant 0 <= pos <= |file|
      invariant lines + Lines(file[pos..]) == Lines(file)
      decreases |file| - pos
    {
      var j := GetLine(file, pos);
      LinesStep(file, pos, j);
      lines := lines + [file[pos..j]];
      pos := if j < |file| then j + 1 else j;
    }
    assert file[|file|..] == "";
    assert lines + [] == lines;
    return Success(lines);
  }
}
