/**
 * The text handling that etcmaint.py (version 0.1) and etcmerger.py, the
 * two versions that precede etcmaint/etcmaint.py, share line for line:
 * list_files and the TIMESTAMP= file (Timestamp.new, now and value).
 */
module EtcLegacy {
  import opened Common
  import opened PyText
  import opened EtcMaintText

  // ---------------------------------------------------------------------
  // list_files
  // ---------------------------------------------------------------------

  /**
   * list_files(path, suffixes, prefixes): the paths, relative to path, of
   * the files of the walk that no non-empty suffix ends and no non-empty
   * prefix starts, in walk order.
   */
  method ListFiles(walk: seq<WalkEntry>, suffixes: seq<string>, prefixes: seq<string>) returns (flist: seq<string>)
    ensures flist == ListRpaths(walk, "", suffixes, prefixes)
    ensures forall p :: p in flist <==> exists e :: e in walk && Unexcluded(e, suffixes, prefixes) && p == e.rpath
  {
    flist := [];
    var i := 0;
    while i < |walk|
      invariant 0 <= i <= |walk|
      invariant flist == ListRpaths(walk[..i], "", suffixes, prefixes)
    {
      var e := walk[i];
      assert walk[..i + 1] == walk[..i] + [e];
      FilterSnoc(walk[..i], e, (e: WalkEntry) => Listed(e, suffixes, prefixes));
      var kept := Filter(walk[..i], (e: WalkEntry) => Listed(e, suffixes, prefixes));
      if !e.isDir && !HasSuffix(e.rpath, suffixes) && !HasPrefix(e.rpath, prefixes) {
        MapSeqAppend(kept, [e], (e: WalkEntry) => PathJoin("", e.rpath));
        assert PathJoin("", e.rpath) == e.rpath;
        flist := flist + [e.rpath];
      }
      i := i + 1;
    }
    assert walk[..i] == walk;
    forall p
      ensures p in flist <==> exists e :: e in walk && Unexcluded(e, suffixes, prefixes) && p == e.rpath
    {
      ListRpathsMember(walk, "", suffixes, prefixes, p);
    }
  }

  // ---------------------------------------------------------------------
  // The timestamp file
  // ---------------------------------------------------------------------

  const TimestampPrefix := "TIMESTAMP="

  /** The message of abort_corrupted. */
  function Corrupted(fname: string): string
  {
    "the '" + fname + "' timestamp file is corrupted"
  }

  /**
   * Lines as `for line in f` yields them: none empty, each holding at most
   * one "\n", at its end, and each but the last ending with it.
   */
  predicate FileLines(lines: seq<string>)
  {
    forall i :: 0 <= i < |lines| ==>
      lines[i] != [] && '\n' !in lines[i][..|lines[i]| - 1]
      && (i < |lines| - 1 ==> lines[i][|lines[i]| - 1] == '\n')
  }

  lemma {:induction false} NewlineEndIs(s: string, i: nat, k: nat)
    requires i < k <= |s|
    requires forall j :: i <= j < k - 1 ==> s[j] != '\n'
    requires k == |s| || s[k - 1] == '\n'
    ensures NewlineEnd(s, i) == k
    decreases k - i
  {
    if i + 1 < k {
      NewlineEndIs(s, i + 1, k);
    }
  }

  /** Reading a file back gives the lines it was written from. */
  lemma {:induction false} ReadLinesJoin(lines: seq<string>)
    requires FileLines(lines)
    ensures ReadLines(Join("", lines)) == lines
    decreases |lines|
  {
    if lines != [] {
      var s := Join("", lines);
      var l := lines[0];
      assert '\n' !in l[..|l| - 1];
      if |lines| == 1 {
        assert s == l;
        NewlineEndIs(s, 0, |s|);
        assert s[|s|..] == [];
      } else {
        var rest := lines[1..];
        assert s == l + Join("", rest);
        assert forall j :: 0 <= j < |l| ==> s[j] == l[j];
        assert forall j :: 0 <= j < |l| - 1 ==> l[j] == l[..|l| - 1][j];
        NewlineEndIs(s, 0, |l|);
        assert s[..|l|] == l && s[|l|..] == Join("", rest);
        assert FileLines(rest) by {
          forall i | 0 <= i < |rest|
            ensures rest[i] == lines[i + 1]
          {
          }
        }
        ReadLinesJoin(rest);
        assert Join("", rest) != [] by {
          assert |Join("", rest)| >= |rest[0]| by {
            if |rest| > 1 {
              assert Join("", rest) == rest[0] + Join("", rest[1..]);
            }
          }
        }
      }
    }
  }

  /** The lines a file is read into have that shape. */
  lemma {:induction false} ReadLinesShape(s: string)
    ensures FileLines(ReadLines(s))
    decreases |s|
  {
    if s != [] {
      var k := NewlineEnd(s, 0);
      var rest := ReadLines(s[k..]);
      ReadLinesShape(s[k..]);
      if rest != [] {
        var lines := [s[..k]] + rest;
        assert ReadLines(s) == lines;
        assert s[..k][..k - 1] == s[..k - 1];
        forall i | 0 <= i < |lines|
          ensures lines[i] != [] && '\n' !in lines[i][..|lines[i]| - 1]
          ensures i < |lines| - 1 ==> lines[i][|lines[i]| - 1] == '\n'
        {
          if i > 0 {
            assert lines[i] == rest[i - 1];
          }
        }
      }
    }
  }

  /** The first line that starts with TIMESTAMP=, if any. */
  function FirstStamp(lines: seq<string>): (i: Option<nat>)
    ensures i.Some? ==> i.value < |lines| && StartsWith(lines[i.value], TimestampPrefix)
    ensures i.Some? ==> forall j :: 0 <= j < i.value ==> !StartsWith(lines[j], TimestampPrefix)
    ensures i.None? ==> forall j :: 0 <= j < |lines| ==> !StartsWith(lines[j], TimestampPrefix)
    decreases |lines|
  {
    if lines == [] then None
    else if StartsWith(lines[0], TimestampPrefix) then Some(0)
    else
      match FirstStamp(lines[1..])
      case None => None
      case Some(i) => Some(i + 1)
  }

  /**
   * Timestamp.value on the text of the file: int() of what follows the
   * '=' of the first TIMESTAMP= line (the prefix holds the line's first
   * '='); abort_corrupted when there is no such line.
   */
  function TimestampValue(content: string, fname: string): (r: Result<int>)
  {
    var lines := ReadLines(content);
    match FirstStamp(lines)
    case None => Err(Abort(Corrupted(fname)))
    case Some(i) => ParseInt(lines[i][|TimestampPrefix|..])
  }

  /** int() fails with ValueError only: value() aborts as corrupted exactly when no line has the prefix. */
  lemma ValueCorrupted(content: string, fname: string)
    ensures TimestampValue(content, fname) == Err(Abort(Corrupted(fname))) <==>
              forall l :: l in ReadLines(content) ==> !StartsWith(l, TimestampPrefix)
  {
    var lines := ReadLines(content);
    if FirstStamp(lines).Some? {
      assert lines[FirstStamp(lines).value] in lines;
    }
  }

  /** The line Timestamp.now() writes for a TIMESTAMP= line, as written: without its "\n". */
  function StampLineAsWritten(line: string, t: int): string
  {
    if StartsWith(line, TimestampPrefix) then TimestampPrefix + IntStr(t) else line
  }

  /** The line Timestamp.now() evidently means to write: the new value, ending as the old line did. */
  function StampLine(line: string, t: int): string
  {
    if StartsWith(line, TimestampPrefix) then
      TimestampPrefix + IntStr(t) + (if EndsWith(line, "\n") then "\n" else "")
    else line
  }

  /** Timestamp.now(t) as written, t standing for int(time.time()). */
  function NowAsWritten(content: string, t: int, fname: string): Result<string>
  {
    var lines := ReadLines(content);
    if FirstStamp(lines).None? then Err(Abort(Corrupted(fname)))
    else Ok(Join("", MapSeq(lines, l => StampLineAsWritten(l, t))))
  }

  /** Timestamp.now(t) keeping each line's end. */
  function NowText(content: string, t: int, fname: string): Result<string>
  {
    var lines := ReadLines(content);
    if FirstStamp(lines).None? then Err(Abort(Corrupted(fname)))
    else Ok(Join("", MapSeq(lines, l => StampLine(l, t))))
  }

  lemma IntStrHasNoNewline(t: int)
    ensures '\n' !in IntStr(t)
  {
    var m: nat := if t < 0 then -t else t;
    assert forall j :: 0 <= j < |NatStr(m)| ==> IsDigit(NatStr(m)[j]);
    if t < 0 {
      assert IntStr(t) == "-" + NatStr(m);
    }
  }

  /** A stamped line keeps the shape of the line it replaces. */
  lemma StampLinesShape(lines: seq<string>, t: int)
    requires FileLines(lines)
    ensures FileLines(MapSeq(lines, l => StampLine(l, t)))
  {
    var out := MapSeq(lines, l => StampLine(l, t));
    IntStrHasNoNewline(t);
    forall i | 0 <= i < |out|
      ensures out[i] != [] && '\n' !in out[i][..|out[i]| - 1]
      ensures i < |out| - 1 ==> out[i][|out[i]| - 1] == '\n'
    {
      var l := lines[i];
      if i < |lines| - 1 {
        assert l[|l| - 1..] == "\n";
      }
      if StartsWith(l, TimestampPrefix) {
        var body := TimestampPrefix + IntStr(t);
        assert '\n' !in body;
        if EndsWith(l, "\n") {
          assert out[i] == body + "\n" && out[i][..|out[i]| - 1] == body;
        } else {
          assert out[i] == body && out[i][..|out[i]| - 1] == body[..|body| - 1];
        }
      }
    }
  }

  /** The first TIMESTAMP= line is where it was. */
  lemma StampKeepsFirst(lines: seq<string>, t: int)
    ensures FirstStamp(MapSeq(lines, l => StampLine(l, t))) == FirstStamp(lines)
  {
    var out := MapSeq(lines, l => StampLine(l, t));
    forall j | 0 <= j < |lines|
      ensures StartsWith(out[j], TimestampPrefix) <==> StartsWith(lines[j], TimestampPrefix)
    {
      assert out[j] == StampLine(lines[j], t);
      StampLineKeepsPrefix(lines[j], t);
    }
    FirstStampAlike(out, lines);
  }

  /** Lines that start with the prefix at the same places have their first stamp at the same place. */
  lemma FirstStampAlike(a: seq<string>, b: seq<string>)
    requires |a| == |b|
    requires forall j :: 0 <= j < |a| ==> (StartsWith(a[j], TimestampPrefix) <==> StartsWith(b[j], TimestampPrefix))
    ensures FirstStamp(a) == FirstStamp(b)
  {
    if FirstStamp(a).Some? {
      var k := FirstStamp(a).value;
      assert StartsWith(b[k], TimestampPrefix);
    }
    if FirstStamp(b).Some? {
      var k := FirstStamp(b).value;
      assert StartsWith(a[k], TimestampPrefix);
    }
  }

  /** A line starts with the prefix once stamped exactly when it did before. */
  lemma StampLineKeepsPrefix(line: string, t: int)
    ensures StartsWith(StampLine(line, t), TimestampPrefix) <==> StartsWith(line, TimestampPrefix)
  {
    if StartsWith(line, TimestampPrefix) {
      var rest := IntStr(t) + (if EndsWith(line, "\n") then "\n" else "");
      assert StampLine(line, t) == TimestampPrefix + rest;
      StartsWithAppend(TimestampPrefix, rest);
    }
  }

  /** Stamping well-shaped lines: they read back, and the first stamp parses as t. */
  lemma StampedLines(lines: seq<string>, t: int)
    requires FileLines(lines) && FirstStamp(lines).Some?
    ensures var out := MapSeq(lines, l => StampLine(l, t));
      && ReadLines(Join("", out)) == out
      && FirstStamp(out) == FirstStamp(lines)
      && ParseInt(out[FirstStamp(lines).value][|TimestampPrefix|..]) == Ok(t)
  {
    var out := MapSeq(lines, l => StampLine(l, t));
    StampLinesShape(lines, t);
    ReadLinesJoin(out);
    StampKeepsFirst(lines, t);
    var i := FirstStamp(lines).value;
    assert out[i] == StampLine(lines[i], t);
    StampedLineValue(lines[i], t);
  }

  /** What follows the prefix on a stamped line parses as the time. */
  lemma StampedLineValue(line: string, t: int)
    requires StartsWith(line, TimestampPrefix)
    ensures ParseInt(StampLine(line, t)[|TimestampPrefix|..]) == Ok(t)
  {
    var tail := if EndsWith(line, "\n") then "\n" else "";
    var stamped := TimestampPrefix + (IntStr(t) + tail);
    assert StampLine(line, t) == stamped;
    assert stamped[|TimestampPrefix|..] == IntStr(t) + tail;
    ParseIntStr(t, tail);
  }

  /**
   * now() fails exactly when value() would report the file corrupted, and
   * otherwise the new text reads back as t. Every other line is kept.
   */
  lemma NowReadsBack(content: string, t: int, fname: string)
    ensures NowText(content, t, fname).Err? <==> TimestampValue(content, fname) == Err(Abort(Corrupted(fname)))
    ensures NowText(content, t, fname).Ok? ==> TimestampValue(NowText(content, t, fname).value, fname) == Ok(t)
    ensures NowText(content, t, fname).Ok? ==>
              var before, after := ReadLines(content), ReadLines(NowText(content, t, fname).value);
              |after| == |before|
              && forall i :: 0 <= i < |before| && !StartsWith(before[i], TimestampPrefix) ==> after[i] == before[i]
  {
    var lines := ReadLines(content);
    ValueCorrupted(content, fname);
    if FirstStamp(lines).Some? {
      ReadLinesShape(content);
      StampedLines(lines, t);
    }
  }

  /** A last line without a newline may follow lines that end with one. */
  lemma FileLinesSnoc(lines: seq<string>, last: string)
    requires FileLines(lines) && (lines != [] ==> EndsWith(lines[|lines| - 1], "\n"))
    requires last != [] && '\n' !in last[..|last| - 1]
    ensures FileLines(lines + [last])
  {
    var all := lines + [last];
    forall i | 0 <= i < |all|
      ensures all[i] != [] && '\n' !in all[i][..|all[i]| - 1]
      ensures i < |all| - 1 ==> all[i][|all[i]| - 1] == '\n'
    {
      if i < |lines| {
        assert all[i] == lines[i];
        if i == |lines| - 1 {
          assert lines[i][|lines[i]| - 1..] == "\n";
        }
      }
    }
  }

  /** The first line with the prefix is the one before which no line has it. */
  lemma FirstStampIs(lines: seq<string>, n: nat)
    requires n < |lines| && StartsWith(lines[n], TimestampPrefix)
    requires forall j :: 0 <= j < n ==> !StartsWith(lines[j], TimestampPrefix)
    ensures FirstStamp(lines) == Some(n)
  {
  }

  /** A comment line is not the TIMESTAMP= line. */
  lemma CommentIsNoStamp(line: string)
    requires line != [] && line[0] == '#'
    ensures !StartsWith(line, TimestampPrefix)
  {
    assert TimestampPrefix[0] == 'T';
  }

  /**
   * The file Timestamp.new() writes, comment lines followed by
   * `TIMESTAMP=0`, reads as 0.
   */
  lemma NewTimestampIsZero(comments: seq<string>, fname: string)
    requires FileLines(comments) && forall i :: 0 <= i < |comments| ==> comments[i][0] == '#'
    requires comments != [] ==> EndsWith(comments[|comments| - 1], "\n")
    ensures TimestampValue(Join("", comments + [TimestampPrefix + "0\n"]), fname) == Ok(0)
  {
    var lines := comments + [TimestampPrefix + "0\n"];
    NewTimestampLines(comments);
    ReadLinesJoin(lines);
    NewTimestampFirst(comments);
    ZeroStampValue();
  }

  /** The lines Timestamp.new() writes have the shape of a file's lines. */
  lemma NewTimestampLines(comments: seq<string>)
    requires FileLines(comments)
    requires comments != [] ==> EndsWith(comments[|comments| - 1], "\n")
    ensures FileLines(comments + [TimestampPrefix + "0\n"])
  {
    var last := TimestampPrefix + "0\n";
    assert last[..|last| - 1] == TimestampPrefix + "0";
    assert '\n' !in TimestampPrefix + "0";
    FileLinesSnoc(comments, last);
  }

  /** The TIMESTAMP= line after the comment lines is the first one. */
  lemma NewTimestampFirst(comments: seq<string>)
    requires forall i :: 0 <= i < |comments| ==> comments[i] != [] && comments[i][0] == '#'
    ensures FirstStamp(comments + [TimestampPrefix + "0\n"]) == Some(|comments|)
  {
    var last := TimestampPrefix + "0\n";
    var lines := comments + [last];
    var n := |comments|;
    forall j | 0 <= j < n
      ensures !StartsWith(lines[j], TimestampPrefix)
    {
      assert lines[j] == comments[j];
      CommentIsNoStamp(comments[j]);
    }
    assert lines[n] == last;
    assert last[..|TimestampPrefix|] == TimestampPrefix;
    FirstStampIs(lines, n);
  }

  /** What follows the prefix on the line Timestamp.new() writes parses as 0. */
  lemma ZeroStampValue()
    ensures ParseInt((TimestampPrefix + "0\n")[|TimestampPrefix|..]) == Ok(0)
  {
    assert (TimestampPrefix + "0\n")[|TimestampPrefix|..] == IntStr(0) + "\n";
    ParseIntStr(0, "\n");
  }

  /** The text now() writes, as written, for a TIMESTAMP= line followed by a comment. */
  lemma NowAsWrittenGlues()
    ensures NowAsWritten("TIMESTAMP=0\n#\n", 1, ".etcmaint_timestamp") == Ok("TIMESTAMP=1#\n")
  {
    var lines := ["TIMESTAMP=0\n", "#\n"];
    assert FileLines(lines);
    ReadLinesJoin(lines);
    assert Join("", lines) == "TIMESTAMP=0\n#\n";
    assert FirstStamp(lines) == Some(0);
    var out := MapSeq(lines, l => StampLineAsWritten(l, 1));
    assert IntStr(1) == "1";
    assert StartsWith(lines[0], TimestampPrefix) && !StartsWith(lines[1], TimestampPrefix);
    assert |out| == 2 && out[0] == TimestampPrefix + IntStr(1) && out[1] == "#\n";
    assert out[0] == "TIMESTAMP=1";
    assert out == ["TIMESTAMP=1", "#\n"];
    assert Join("", out) == "TIMESTAMP=1#\n";
  }

  /** value() on the glued line: int("1#\n") raises ValueError. */
  lemma GluedValueFails()
    ensures TimestampValue("TIMESTAMP=1#\n", ".etcmaint_timestamp") == Err(PyError("ValueError"))
  {
    var glued := ["TIMESTAMP=1#\n"];
    assert FileLines(glued);
    ReadLinesJoin(glued);
    assert Join("", glued) == "TIMESTAMP=1#\n";
    assert FirstStamp(glued) == Some(0);
    assert "TIMESTAMP=1#\n"[|TimestampPrefix|..] == "1#\n";
    assert Strip("1#\n") == "1#" by {
      assert LStrip("1#\n") == "1#\n";
      assert "1#\n"[..2] == "1#";
      assert RStrip("1#") == "1#";
    }
    assert !WellFormedDigits("1#") by {
      assert !IsDigit("1#"[1]);
    }
  }

  /**
   * As written, now() glues the TIMESTAMP= line to the line after it, and
   * value() then fails on the new file; keeping the line's end, the new
   * file reads back the time.
   */
  lemma NowAsWrittenBreaksValue()
    ensures NowAsWritten("TIMESTAMP=0\n#\n", 1, ".etcmaint_timestamp") == Ok("TIMESTAMP=1#\n")
    ensures TimestampValue("TIMESTAMP=1#\n", ".etcmaint_timestamp") == Err(PyError("ValueError"))
    ensures NowText("TIMESTAMP=0\n#\n", 1, ".etcmaint_timestamp").Ok?
    ensures TimestampValue(NowText("TIMESTAMP=0\n#\n", 1, ".etcmaint_timestamp").value, ".etcmaint_timestamp") == Ok(1)
  {
    NowAsWrittenGlues();
    GluedValueFails();
    NowReadsBack("TIMESTAMP=0\n#\n", 1, ".etcmaint_timestamp");
  }

  /**
   * Timestamp.now: the loop over the lines of the file, replacing each
   * TIMESTAMP= line and noting whether one was found.
   */
  method Now(content: string, t: int, fname: string) returns (r: Result<string>)
    ensures r == NowText(content, t, fname)
  {
    var lines := ReadLines(content);
    var out, prefixFound := StampAll(lines, t);
    if !prefixFound {
      r := Err(Abort(Corrupted(fname)));
    } else {
      r := Ok(Join("", out));
    }
  }

  /** The loop of Timestamp.now over the lines of the file. */
  method StampAll(lines: seq<string>, t: int) returns (out: seq<string>, prefixFound: bool)
    ensures out == MapSeq(lines, l => StampLine(l, t))
    ensures prefixFound <==> FirstStamp(lines).Some?
  {
    prefixFound := false;
    out := [];
    var i := 0;
    while i < |lines|
      invariant 0 <= i <= |lines|
      invariant out == MapSeq(lines[..i], l => StampLine(l, t))
      invariant prefixFound <==> exists j :: 0 <= j < i && StartsWith(lines[j], TimestampPrefix)
    {
      var line := lines[i];
      if StartsWith(line, TimestampPrefix) {
        prefixFound := true;
      }
      assert lines[..i + 1] == lines[..i] + [line];
      MapSeqAppend(lines[..i], [line], l => StampLine(l, t));
      out := out + [StampLine(line, t)];
      i := i + 1;
    }
    assert lines[..i] == lines;
  }
}
