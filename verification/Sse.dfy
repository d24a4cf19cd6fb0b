/** parseSSEChunk (web/src/lib/sse.ts): the incremental parser of the event stream. */
module Sse {
  import opened Strings

  /** A blank line starts at index k. */
  predicate BlankAt(s: string, k: int) {
    0 <= k < |s| - 1 && s[k] == '\n' && s[k + 1] == '\n'
  }

  /** buf.indexOf("\n\n") */
  function IndexOfBlank(s: string): (i: int)
    ensures i == -1 || BlankAt(s, i)
    ensures forall k | BlankAt(s, k) :: 0 <= i <= k
  {
    if |s| < 2 then -1
    else if s[0] == '\n' && s[1] == '\n' then 0
    else
      var r := IndexOfBlank(s[1..]);
      assert forall k :: BlankAt(s, k) ==> k > 0 && BlankAt(s[1..], k - 1);
      if r < 0 then -1 else r + 1
  }

  const DATA := "data: "

  /** The data lines' texts after the field name. */
  function DataLines(lines: seq<string>): seq<string> {
    if lines == [] then []
    else (if HasPrefix(lines[0], DATA) then [lines[0][6..]] else []) + DataLines(lines[1..])
  }

  function Payload(frame: string): string {
    Concat(DataLines(Split(frame, '\n')))
  }

  datatype Parsed = Parsed(frames: seq<string>, rest: string)

  function Push(data: string): seq<string> {
    if data != "" then [data] else []
  }

  function Behind(frames: seq<string>, p: Parsed): Parsed {
    Parsed(frames + p.frames, p.rest)
  }

  /** The payloads of the complete frames of a buffer, and what is left. */
  function Parse(buf: string): Parsed
    decreases |buf|
  {
    var idx := IndexOfBlank(buf);
    if idx == -1 then Parsed([], buf)
    else Behind(Push(Payload(buf[..idx])), Parse(buf[idx + 2..]))
  }

  /** parseSSEChunk: the loop ends, and what it leaves holds no blank line. */
  method ParseSSEChunk(chunk: string, previousRest: string) returns (frames: seq<string>, rest: string)
    ensures Parsed(frames, rest) == Parse(previousRest + chunk)
    ensures forall k :: !BlankAt(rest, k)
  {
    hide Payload, IndexOfBlank;
    var buf := previousRest + chunk;
    frames := [];
    while true
      invariant Behind(frames, Parse(buf)) == Parse(previousRest + chunk)
      decreases |buf|
    {
      var idx := IndexOfBlank(buf);
      if idx == -1 { break; }
      var frame := buf[..idx];
      buf := buf[idx + 2..];
      var data := Payload(frame);
      ghost var frames0 := frames;
      if data != "" { frames := frames + [data]; }
      assert frames == frames0 + Push(data);
      BehindTwice(frames0, Push(data), Parse(buf));
    }
    rest := buf;
    assert frames + [] == frames;
  }

  lemma BehindTwice(a: seq<string>, b: seq<string>, p: Parsed)
    ensures Behind(a, Behind(b, p)) == Behind(a + b, p)
  {}

  lemma {:induction false} FirstBlankKept(a: string, b: string)
    requires IndexOfBlank(a) >= 0
    ensures IndexOfBlank(a + b) == IndexOfBlank(a)
  {
    var i := IndexOfBlank(a);
    assert BlankAt(a + b, i);
    assert forall k :: BlankAt(a + b, k) && k < i ==> BlankAt(a, k);
  }

  lemma ParseStep(buf: string)
    requires IndexOfBlank(buf) >= 0
    ensures var i := IndexOfBlank(buf); Parse(buf) == Behind(Push(Payload(buf[..i])), Parse(buf[i + 2..]))
  {}

  /** Parsing may stop anywhere and resume with the remainder in front. */
  lemma {:induction false} ParseResumes(a: string, b: string)
    ensures Parse(a + b) == Behind(Parse(a).frames, Parse(Parse(a).rest + b))
    decreases |a|
  {
    var i := IndexOfBlank(a);
    if i >= 0 {
      hide Payload, IndexOfBlank, Parse, Push;
      FirstBlankKept(a, b);
      assert (a + b)[..i] == a[..i];
      assert (a + b)[i + 2..] == a[i + 2..] + b;
      ParseStep(a);
      ParseStep(a + b);
      ParseResumes(a[i + 2..], b);
      BehindTwice(Push(Payload(a[..i])), Parse(a[i + 2..]).frames, Parse(Parse(a).rest + b));
    } else {
      assert [] + Parse(a + b).frames == Parse(a + b).frames;
    }
  }

  /** Chunk by chunk, threading the remainder. */
  function Feed(chunks: seq<string>, rest: string): Parsed {
    if chunks == [] then Parsed([], rest) else
    var first := Parse(rest + chunks[0]);
    Behind(first.frames, Feed(chunks[1..], first.rest))
  }

  /** The remainder has no complete frame in it. */
  lemma {:induction false} RestHasNoFrame(buf: string)
    ensures IndexOfBlank(Parse(buf).rest) == -1
    ensures Parse(Parse(buf).rest) == Parsed([], Parse(buf).rest)
    decreases |buf|
  {
    if IndexOfBlank(buf) >= 0 { RestHasNoFrame(buf[IndexOfBlank(buf) + 2..]); }
  }

  /** Chunk invariance: any split of a text gives the same frames and the same remainder as the whole. */
  lemma {:induction false} ChunkInvariance(chunks: seq<string>, rest: string)
    requires IndexOfBlank(rest) == -1
    ensures Feed(chunks, rest) == Parse(rest + Concat(chunks))
  {
    hide Payload, IndexOfBlank, Parse, Push;
    if chunks == [] {
      assert rest + Concat(chunks) == rest;
      NoFrame(rest);
    } else {
      var buf, tail := rest + chunks[0], Concat(chunks[1..]);
      RestHasNoFrame(buf);
      ChunkInvariance(chunks[1..], Parse(buf).rest);
      ParseResumes(buf, tail);
      assert rest + Concat(chunks) == buf + tail by {
        assert Concat(chunks) == chunks[0] + tail;
      }
    }
  }

  lemma NoFrame(rest: string)
    requires IndexOfBlank(rest) == -1
    ensures Parse(rest) == Parsed([], rest)
  {}

  lemma {:induction false} DataLinesJoin(a: seq<string>, b: seq<string>)
    ensures DataLines(a + b) == DataLines(a) + DataLines(b)
  {
    if a == [] {
      assert a + b == b;
    } else {
      hide HasPrefix;
      DataLinesJoin(a[1..], b);
      assert (a + b)[0] == a[0] && (a + b)[1..] == a[1..] + b;
      var first := if HasPrefix(a[0], DATA) then [a[0][6..]] else [];
      assert first + (DataLines(a[1..]) + DataLines(b)) == first + DataLines(a[1..]) + DataLines(b);
    }
  }

  /** What a frame says, line by line: a data line adds its text, with nothing in between, and any other
      line adds nothing. */
  lemma PayloadByLines(frame: string, line: string)
    requires '\n' !in line
    ensures Payload("") == ""
    ensures var text := if HasPrefix(line, "data: ") then line[6..] else "";
            Payload(line) == text && Payload(frame + "\n" + line) == Payload(frame) + text
  {
    assert Split("", '\n') == [""];
    SplitLast(frame, line, '\n');
    SplitUnseparated(line, '\n');
    DataLinesJoin(Split(frame, '\n'), [line]);
    ConcatJoin(DataLines(Split(frame, '\n')), DataLines([line]));
    var data := if HasPrefix(line, DATA) then [line[6..]] else [];
    assert [line][1..] == [] && DataLines([line]) == data + [] == data;
    assert data != [] ==> Concat(data) == line[6..] + Concat([]);
  }

  // ---------------------------------------------------------------- frames as the server writes them

  datatype Frame = Padding | Ping | Data(payload: string)
  {
    function Bytes(): string {
      match this
      case Padding => "\n"
      case Ping => ": ping\n\n"
      case Data(p) => "data: " + p + "\n\n"
    }

    /** Payloads are JSON texts: not empty, and without raw newlines. */
    predicate Wellformed() {
      Data? ==> payload != "" && '\n' !in payload
    }
  }

  function Wire(frames: seq<Frame>): string {
    if frames == [] then "" else Wire(frames[..|frames| - 1]) + frames[|frames| - 1].Bytes()
  }

  function Payloads(frames: seq<Frame>): seq<string> {
    if frames == [] then []
    else Payloads(frames[..|frames| - 1]) + if frames[|frames| - 1].Data? then [frames[|frames| - 1].payload] else []
  }

  /** The padding comes first and only first. */
  predicate Proper(frames: seq<Frame>) {
    forall i | 0 <= i < |frames| :: frames[i].Wellformed() && (frames[i].Padding? <==> i == 0)
  }

  lemma LineEnd(line: string)
    requires '\n' !in line
    ensures IndexOfBlank(line + "\n\n") == |line|
    ensures line != "" ==> IndexOfBlank("\n" + line + "\n\n") == |line| + 1
  {
    var s, t := line + "\n\n", "\n" + line + "\n\n";
    assert BlankAt(s, |line|) && BlankAt(t, |line| + 1);
    assert forall k | 0 <= k < |line| :: line[k] in line && s[k] == line[k] && t[k + 1] == line[k];
    assert forall k :: BlankAt(s, k) ==> k >= |line|;
    assert line != "" ==> forall k :: BlankAt(t, k) ==> k >= |line| + 1;
  }

  lemma PayloadOf(line: string)
    requires '\n' !in line
    ensures Payload(line) == if HasPrefix(line, DATA) then line[6..] else ""
    ensures Payload("\n" + line) == Payload(line)
  {
    SplitUnseparated(line, '\n');
    SplitFirst("", line, '\n');
    assert "" + ['\n'] + line == "\n" + line;
    assert [""][1..] == [] && [line][1..] == [];
    assert ([""] + [line])[1..] == [line];
    assert DataLines([""] + [line]) == DataLines([line]);
    if HasPrefix(line, DATA) {
      assert DataLines([line]) == [line[6..]] + [];
      assert Concat([line[6..]]) == line[6..] + Concat([]);
    } else {
      assert DataLines([line]) == [] + [];
    }
  }

  /** A complete line frame parses to its payload, also behind the padding. */
  lemma LineFrame(line: string)
    requires '\n' !in line && line != ""
    ensures Parse(line + "\n\n") == Parsed(if Payload(line) != "" then [Payload(line)] else [], "")
    ensures Parse("\n" + line + "\n\n") == Parse(line + "\n\n")
  {
    LineEnd(line);
    PayloadOf(line);
    var s, t := line + "\n\n", "\n" + line + "\n\n";
    assert s[..|line|] == line && s[|line| + 2..] == "";
    assert t[..|line| + 1] == "\n" + line && t[|line| + 3..] == "";
    assert Parse("") == Parsed([], "");
  }

  lemma FrameParses(f: Frame, rest: string)
    requires f.Wellformed() && !f.Padding? && (rest == "" || rest == "\n")
    ensures Parse(rest + f.Bytes()) == Parsed(if f.Data? then [f.payload] else [], "")
  {
    hide Parse, Payload, Split;
    var line := if f.Data? then DATA + f.payload else ": ping";
    LineFrame(line);
    PayloadOf(line);
    assert line + "\n\n" == f.Bytes();
    assert "\n" + line + "\n\n" == "\n" + f.Bytes();
    assert "" + f.Bytes() == f.Bytes();
    if f.Data? { assert line[6..] == f.payload; }
  }

  /** Whole frames parse back to exactly the data payloads, in order. */
  lemma {:induction false} WireParses(frames: seq<Frame>)
    requires Proper(frames)
    ensures Parse(Wire(frames)) == Parsed(Payloads(frames), if |frames| == 1 then "\n" else "")
  {
    if frames != [] {
      var init, f := frames[..|frames| - 1], frames[|frames| - 1];
      WireParses(init);
      if init == [] {
        assert Wire(frames) == "\n" && IndexOfBlank("\n") == -1;
      } else {
        ParseResumes(Wire(init), f.Bytes());
        FrameParses(f, Parse(Wire(init)).rest);
      }
    }
  }

  /** Cut anywhere, the text received yields a prefix of the payloads. */
  lemma CutParses(frames: seq<Frame>, n: nat)
    requires Proper(frames) && n <= |Wire(frames)|
    ensures Parse(Wire(frames)[..n]).frames <= Payloads(frames)
  {
    var all := Wire(frames);
    assert all == all[..n] + all[n..];
    ParseResumes(all[..n], all[n..]);
    WireParses(frames);
  }
}
