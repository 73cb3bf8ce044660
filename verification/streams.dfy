/** Text input as the library reads it: a stream over the whole text with
    the end-of-file and failure flags of a C++ input stream, and the
    `std::getline` extraction that splits it at a delimiter. */
module Streams {

  datatype Stream = Stream(rest: string, eof: bool, fail: bool) {
    /** Neither flag is set, so the next extraction may proceed. */
    predicate Good() { !eof && !fail }

    /** The states reachable from a freshly opened stream: a failure is
        always at end of input, and nothing is left once it is reached. */
    predicate Sane() { (fail ==> eof) && (eof ==> rest == []) }
  }

  /** A stream positioned at the start of `text`. */
  function Open(text: string): (s: Stream)
    ensures s.Good() && s.Sane() && s.rest == text
  {
    Stream(text, false, false)
  }

  /** Position of the first `delim` in `s`, or |s| when there is none. */
  function Find(s: string, delim: char): (p: nat)
    ensures p <= |s|
    ensures forall q | 0 <= q < p :: s[q] != delim
    ensures p < |s| ==> s[p] == delim
    decreases |s|
  {
    if |s| == 0 || s[0] == delim then 0 else 1 + Find(s[1..], delim)
  }

  /** `std::getline(s, str, delim)`: when the stream is not good the
      extraction fails and leaves `str` as it was; at end of input it sets
      both flags and empties `str`; otherwise it takes the characters up
      to the delimiter, consuming the delimiter, or up to the end, setting
      the end-of-file flag. Returns the new stream and the new `str`. */
  function GetLine(s: Stream, str: string, delim: char): (r: (Stream, string))
    ensures s.Sane() ==> r.0.Sane()
    ensures |r.0.rest| <= |s.rest|
    ensures !r.0.fail ==> s.Good() && |r.0.rest| < |s.rest| && delim !in r.1
    ensures !r.0.fail && !r.0.eof ==> s.rest == r.1 + [delim] + r.0.rest
    ensures !r.0.fail && r.0.eof ==> s.rest == r.1 && r.0.rest == []
    ensures r.0.fail ==> r.0.eof || s.fail
    ensures r.0.fail && s.Good() ==> r.1 == [] && s.rest == []
    ensures r.0.fail && !s.Good() ==> r.1 == str
  {
    if !s.Good() then (s.(fail := true), str)
    else if |s.rest| == 0 then (Stream([], true, true), [])
    else
      var p := Find(s.rest, delim);
      if p < |s.rest| then
        assert s.rest == s.rest[..p] + [delim] + s.rest[p + 1..];
        (Stream(s.rest[p + 1..], false, false), s.rest[..p])
      else
        assert s.rest[..p] == s.rest;
        (Stream([], true, false), s.rest)
  }

  /** Extraction from a good stream holding a delimiter takes the text
      before it and leaves the text after it. */
  lemma GetLineField(a: string, b: string, str: string, delim: char)
    requires delim !in a
    ensures GetLine(Stream(a + [delim] + b, false, false), str, delim) == (Stream(b, false, false), a)
  {
    FindAfter(a, b, delim);
    var s := a + [delim] + b;
    assert s[..|a|] == a && s[|a| + 1..] == b;
  }

  /** Extraction from a good stream holding no delimiter takes everything
      and reaches the end of input without failing. */
  lemma GetLineLast(a: string, str: string, delim: char)
    requires delim !in a && a != []
    ensures GetLine(Stream(a, false, false), str, delim) == (Stream([], true, false), a)
  {
  }

  /** The lines of `text`: the pieces between newlines, where a final
      newline ends the last line rather than opening an empty one. */
  function SplitLines(text: string): seq<string>
    decreases |text|
  {
    if |text| == 0 then []
    else
      var p := Find(text, '\n');
      if p < |text| then [text[..p]] + SplitLines(text[p + 1..]) else [text]
  }

  /** Whether the text ends with a line that no newline terminates. */
  predicate Unterminated(text: string) {
    |text| > 0 && text[|text| - 1] != '\n'
  }

  /** A successful line extraction from a good stream yields the first line
      of what is left, and leaves exactly the remaining lines. */
  lemma GetLineSplits(s: Stream, str: string)
    requires s.Good() && s.rest != []
    ensures var (s', line) := GetLine(s, str, '\n');
      && !s'.fail
      && SplitLines(s.rest) == [line] + SplitLines(s'.rest)
      && (s'.eof <==> |SplitLines(s.rest)| == 1 && Unterminated(s.rest))
      && (s'.rest != [] ==> Unterminated(s'.rest) == Unterminated(s.rest))
  {
    var p := Find(s.rest, '\n');
    var (s', line) := GetLine(s, str, '\n');
    if p < |s.rest| {
      assert s'.rest == s.rest[p + 1..];
      if s'.rest == [] {
        assert s.rest[|s.rest| - 1] == '\n';
      } else {
        assert SplitLines(s'.rest) != [];
      }
    }
  }

  /** Lines extracted by `while (std::getline(s, line))` until it fails. */
  function ReadLines(s: Stream): seq<string>
    decreases |s.rest|
  {
    var (s', line) := GetLine(s, [], '\n');
    if s'.fail then [] else [line] + ReadLines(s')
  }

  /** The extraction loop reads exactly the lines of the text. */
  lemma {:induction false} ReadLinesSplits(s: Stream)
    requires s.Sane()
    ensures ReadLines(s) == (if s.Good() then SplitLines(s.rest) else [])
    decreases |s.rest|
  {
    var (s', line) := GetLine(s, [], '\n');
    if s.Good() && s.rest != [] {
      GetLineSplits(s, []);
      ReadLinesSplits(s');
    }
  }

  /** Lines each followed by a newline, as `stream << line << std::endl`
      writes them. */
  function Terminated(lines: seq<string>): (text: string)
    ensures |lines| > 0 ==> |text| > 0 && text[|text| - 1] == '\n'
  {
    if |lines| == 0 then [] else lines[0] + "\n" + Terminated(lines[1..])
  }

  lemma FindAfter(a: string, b: string, delim: char)
    requires delim !in a
    ensures Find(a + [delim] + b, delim) == |a|
  {
    var s := a + [delim] + b;
    assert s[|a|] == delim;
  }

  /** Writing lines free of newlines and splitting the text again gives
      back the lines. */
  lemma {:induction false} SplitTerminated(lines: seq<string>)
    requires forall k | 0 <= k < |lines| :: '\n' !in lines[k]
    ensures SplitLines(Terminated(lines)) == lines
  {
    if |lines| > 0 {
      var text := Terminated(lines);
      assert text == lines[0] + ['\n'] + Terminated(lines[1..]);
      FindAfter(lines[0], Terminated(lines[1..]), '\n');
      assert text[..|lines[0]|] == lines[0];
      assert text[|lines[0]| + 1..] == Terminated(lines[1..]);
      SplitTerminated(lines[1..]);
    }
  }

  /** Number of newline characters in the text. */
  function CountNewlines(text: string): nat {
    multiset(text)['\n']
  }

  lemma NewlinesOfConcat(a: string, b: string)
    ensures CountNewlines(a + b) == CountNewlines(a) + CountNewlines(b)
  {
    assert multiset(a + b) == multiset(a) + multiset(b);
  }

  lemma NoNewlines(a: string)
    requires '\n' !in a
    ensures CountNewlines(a) == 0
  {
    assert '\n' !in multiset(a);
  }

  /** Each line but possibly the last ends in a newline, so there is at most
      one more line than newlines, and exactly as many when the text does
      not end in an unterminated line. */
  lemma {:induction false} LinesAndNewlines(text: string)
    ensures |SplitLines(text)| == CountNewlines(text) + (if Unterminated(text) then 1 else 0)
    decreases |text|
  {
    if |text| > 0 {
      var p := Find(text, '\n');
      var head := text[..p];
      NoNewlines(head);
      if p < |text| {
        var tail := text[p + 1..];
        assert text == head + "\n" + tail;
        NewlinesOfConcat(head + "\n", tail);
        NewlinesOfConcat(head, "\n");
        LinesAndNewlines(tail);
        if tail != [] {
          assert text[|text| - 1] == tail[|tail| - 1];
        }
      } else {
        assert head == text;
      }
    }
  }
}
