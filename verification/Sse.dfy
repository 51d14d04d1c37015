/**
 * The incremental Server-Sent Events decoder: chunks in, complete events out, a partial event kept in
 * a buffer. The stream format is that of the WHATWG HTML Living Standard, sections 9.2.5 and 9.2.6,
 * without `id`, `retry` and the byte order mark; a block with only an `event:` line is an event here.
 */
module Sse {
  import opened Wrappers
  import opened Text

  datatype SseEvent = SseEvent(event: string, data: string)

  // ----- line endings

  function ReplaceCrLf(s: string): string {
    if s == "" then ""
    else if |s| > 1 && s[0] == '\r' && s[1] == '\n' then "\n" + ReplaceCrLf(s[2..])
    else [s[0]] + ReplaceCrLf(s[1..])
  }

  /** Both replacements a chunk goes through: first CR LF, then any CR that is left. */
  function Normal(chunk: string): string {
    Replace(ReplaceCrLf(chunk), '\r', '\n')
  }

  // ----- blocks

  /** The offset of the first blank line. */
  function FindBlank(s: string): Option<nat> {
    if |s| < 2 then None
    else if s[0] == '\n' && s[1] == '\n' then Some(0)
    else match FindBlank(s[1..])
      case None => None
      case Some(i) => Some(i + 1)
  }

  predicate BlankAt(s: string, j: int) {
    0 <= j && j + 2 <= |s| && s[j] == '\n' && s[j + 1] == '\n'
  }

  lemma {:induction false} FindBlankIsFirst(s: string)
    ensures FindBlank(s).Some? ==> BlankAt(s, FindBlank(s).value)
    ensures FindBlank(s).Some? ==> forall j :: BlankAt(s, j) ==> FindBlank(s).value <= j
    ensures FindBlank(s).None? ==> forall j :: !BlankAt(s, j)
  {
    if |s| >= 2 {
      FindBlankIsFirst(s[1..]);
      assert forall j :: j > 0 && BlankAt(s, j) ==> BlankAt(s[1..], j - 1);
      if FindBlank(s[1..]).Some? {
        assert BlankAt(s, FindBlank(s[1..]).value + 1);
      }
    }
  }

  function ChopCr(line: string): string {
    if line != "" && line[|line| - 1] == '\r' then line[..|line| - 1] else line
  }

  function ChopAll(lines: seq<string>): seq<string> {
    if lines == [] then [] else [ChopCr(lines[0])] + ChopAll(lines[1..])
  }

  /** `str::lines`: no last line when the text ends with a line feed, and no CR before a line feed. */
  function Lines(s: string): seq<string> {
    var pieces := Split(s, '\n');
    var last := pieces[|pieces| - 1];
    ChopAll(pieces[..|pieces| - 1]) + (if last == "" then [] else [last])
  }

  function StripPrefix(s: string, prefix: string): Option<string> {
    if prefix <= s then Some(s[|prefix|..]) else None
  }

  function StripOneSpace(value: string): string {
    if value != "" && value[0] == ' ' then value[1..] else value
  }

  function FieldOf(line: string, name: string): Option<string> {
    match StripPrefix(line, name)
    case None => None
    case Some(value) => Some(StripOneSpace(value))
  }

  /** The values of the `data:` lines, in order. */
  function DataOf(lines: seq<string>): seq<string> {
    if lines == [] then []
    else
      var earlier := DataOf(lines[..|lines| - 1]);
      match FieldOf(lines[|lines| - 1], "data:")
      case Some(value) => earlier + [value]
      case None => earlier
  }

  /** The value of the last `event:` line. */
  function EventOf(lines: seq<string>): Option<string> {
    if lines == [] then None
    else match FieldOf(lines[|lines| - 1], "event:")
      case Some(value) => Some(value)
      case None => EventOf(lines[..|lines| - 1])
  }

  function JoinLines(lines: seq<string>): string {
    if lines == [] then "" else Join(lines, '\n')
  }

  /** What a block says: nothing without a field line, else the last event name and the data lines joined. */
  function BlockOf(lines: seq<string>): Option<SseEvent> {
    if EventOf(lines).None? && DataOf(lines) == [] then None
    else Some(SseEvent(if EventOf(lines).Some? then EventOf(lines).value else "message", JoinLines(DataOf(lines))))
  }

  method ParseBlock(block: string) returns (r: Option<SseEvent>)
    ensures r == BlockOf(Lines(block))
  {
    var lines := Lines(block);
    var eventType: Option<string> := None;
    var dataLines: seq<string> := [];
    var sawField := false;
    var i := 0;
    while i < |lines|
      invariant 0 <= i <= |lines|
      invariant eventType == EventOf(lines[..i]) && dataLines == DataOf(lines[..i])
      invariant sawField <==> eventType.Some? || dataLines != []
    {
      var line := lines[i];
      assert lines[..i + 1][..i] == lines[..i] && lines[..i + 1][i] == line;
      FieldsDiffer(line);
      if [':'] <= line {
        i := i + 1;
        continue;
      }
      var value := StripPrefix(line, "event:");
      if value.Some? {
        eventType, sawField := Some(StripOneSpace(value.value)), true;
      } else {
        value := StripPrefix(line, "data:");
        if value.Some? {
          dataLines, sawField := dataLines + [StripOneSpace(value.value)], true;
        }
      }
      i := i + 1;
    }
    assert lines[..i] == lines;
    if !sawField {
      return None;
    }
    r := Some(SseEvent(if eventType.Some? then eventType.value else "message", JoinLines(dataLines)));
  }

  /** A line is at most one of a comment, an `event:` line and a `data:` line. */
  lemma FieldsDiffer(line: string)
    ensures [':'] <= line ==> !("event:" <= line) && !("data:" <= line)
    ensures "event:" <= line ==> !("data:" <= line)
  {
    if "event:" <= line {
      assert line[0] == 'e';
    }
    if "data:" <= line {
      assert line[0] == 'd';
    }
  }

  // ----- the decoder

  function Emit(event: Option<SseEvent>): seq<SseEvent> {
    if event.Some? then [event.value] else []
  }

  /** All the events whose blank line is in `s`, and the text after the last blank line. */
  function Drain(s: string): (seq<SseEvent>, string)
    decreases |s|
  {
    match FindBlank(s)
    case None => ([], s)
    case Some(i) =>
      FindBlankIsFirst(s);
      var (events, rest) := Drain(s[i + 2..]);
      (Emit(BlockOf(Lines(s[..i]))) + events, rest)
  }

  class SseDecoder {
    var buf: string

    /** The buffer holds normalised text without a blank line. */
    ghost predicate Valid()
      reads this
    {
      '\r' !in buf && FindBlank(buf).None?
    }

    constructor ()
      ensures buf == "" && Valid()
    {
      buf := "";
    }

    method Push(chunk: string) returns (events: seq<SseEvent>)
      requires Valid()
      modifies this
      ensures Valid()
      ensures (events, buf) == Drain(old(buf) + Normal(chunk))
    {
      hide Normal, BlockOf, Lines;
      NormalHasNoCr(chunk);
      buf := buf + Normal(chunk);
      ghost var all := buf;
      events := [];
      assert [] + Drain(all).0 == Drain(all).0;
      while FindBlank(buf).Some?
        invariant '\r' !in buf
        invariant Drain(all) == (events + Drain(buf).0, Drain(buf).1)
        decreases |buf|
      {
        var idx := FindBlank(buf).value;
        FindBlankIsFirst(buf);
        var block := buf[..idx];
        buf := buf[idx + 2..];
        var event := ParseBlock(block);
        assert events + (Emit(event) + Drain(buf).0) == (events + Emit(event)) + Drain(buf).0;
        assert events + Emit(None) == events;
        if event.Some? {
          events := events + [event.value];
        }
      }
      assert events + [] == events;
    }
  }

  lemma NormalHasNoCr(chunk: string)
    ensures '\r' !in Normal(chunk)
  {
  }

  /** Pushing one chunk after another: all the events, and the buffer at the end. */
  function PushAll(buf: string, chunks: seq<string>): (seq<SseEvent>, string)
    decreases |chunks|
  {
    if chunks == [] then ([], buf)
    else
      var (first, kept) := Drain(buf + Normal(chunks[0]));
      var (later, rest) := PushAll(kept, chunks[1..]);
      (first + later, rest)
  }

  function Concat(chunks: seq<string>): string {
    if chunks == [] then "" else chunks[0] + Concat(chunks[1..])
  }

  method Decode(chunks: seq<string>) returns (events: seq<SseEvent>, rest: string)
    ensures (events, rest) == PushAll("", chunks)
  {
    hide Drain, Normal;
    var decoder := new SseDecoder();
    events := [];
    assert chunks[0..] == chunks && [] + PushAll("", chunks).0 == PushAll("", chunks).0;
    for i := 0 to |chunks|
      invariant decoder.Valid()
      invariant PushAll("", chunks)
             == (events + PushAll(decoder.buf, chunks[i..]).0, PushAll(decoder.buf, chunks[i..]).1)
    {
      assert chunks[i..][1..] == chunks[i + 1..];
      var more := decoder.Push(chunks[i]);
      var later := PushAll(decoder.buf, chunks[i + 1..]).0;
      assert events + (more + later) == (events + more) + later;
      events := events + more;
    }
    assert events + [] == events;
    rest := decoder.buf;
  }

  // ----- cutting the stream into chunks

  lemma {:induction false} FindBlankExtends(s: string, t: string)
    requires FindBlank(s).Some?
    ensures FindBlank(s + t) == FindBlank(s)
  {
    assert (s + t)[0] == s[0] && (s + t)[1] == s[1] && (s + t)[1..] == s[1..] + t;
    if !(s[0] == '\n' && s[1] == '\n') {
      FindBlankExtends(s[1..], t);
    }
  }

  /** Draining a prefix first, and then what it left together with the rest, is draining the whole. */
  lemma {:induction false} DrainInTwo(s: string, t: string)
    ensures Drain(s + t) == (Drain(s).0 + Drain(Drain(s).1 + t).0, Drain(Drain(s).1 + t).1)
    decreases |s|
  {
    hide Drain, FindBlank;
    if FindBlank(s).Some? {
      var i := FindBlank(s).value;
      FindBlankIsFirst(s);
      FindBlankExtends(s, t);
      assert (s + t)[..i] == s[..i] && (s + t)[i + 2..] == s[i + 2..] + t;
      DrainInTwo(s[i + 2..], t);
      DrainStep(s);
      DrainStep(s + t);
      var here, next := Emit(BlockOf(Lines(s[..i]))), Drain(s[i + 2..]);
      assert here + (next.0 + Drain(next.1 + t).0) == (here + next.0) + Drain(next.1 + t).0;
    } else {
      DrainNothing(s);
      assert [] + Drain(s + t).0 == Drain(s + t).0;
    }
  }

  lemma DrainStep(s: string)
    requires FindBlank(s).Some?
    ensures var i := FindBlank(s).value;
            i + 2 <= |s| && Drain(s) == (Emit(BlockOf(Lines(s[..i]))) + Drain(s[i + 2..]).0, Drain(s[i + 2..]).1)
  {
    hide BlockOf, Lines;
    FindBlankIsFirst(s);
  }

  /** The rest never holds a blank line, so the buffer never keeps an event that could be given out. */
  lemma {:induction false} RestHasNoBlank(s: string)
    ensures FindBlank(Drain(s).1).None?
    decreases |s|
  {
    if FindBlank(s).Some? {
      FindBlankIsFirst(s);
      RestHasNoBlank(s[FindBlank(s).value + 2..]);
    }
  }

  function Normals(chunks: seq<string>): string {
    if chunks == [] then "" else Normal(chunks[0]) + Normals(chunks[1..])
  }

  /** However a stream is cut, pushing its chunks drains the chunks' normal forms put together. */
  lemma {:induction false} PushAllDrains(buf: string, chunks: seq<string>)
    requires FindBlank(buf).None?
    ensures PushAll(buf, chunks) == Drain(buf + Normals(chunks))
    decreases |chunks|
  {
    hide Drain, Normal;
    if chunks == [] {
      assert buf + "" == buf;
      DrainNothing(buf);
    } else {
      var s := buf + Normal(chunks[0]);
      RestHasNoBlank(s);
      PushAllDrains(Drain(s).1, chunks[1..]);
      DrainInTwo(s, Normals(chunks[1..]));
      assert s + Normals(chunks[1..]) == buf + Normals(chunks);
    }
  }

  lemma DrainNothing(buf: string)
    requires FindBlank(buf).None?
    ensures Drain(buf) == ([], buf)
  {
  }

  /** The cut between `a` and `b` separates a CR from its LF. */
  predicate CutsCrLf(a: string, b: string) {
    a != "" && a[|a| - 1] == '\r' && b != "" && b[0] == '\n'
  }

  predicate StartsWithCrLf(s: string) {
    |s| > 1 && s[0] == '\r' && s[1] == '\n'
  }

  lemma {:induction false} ReplaceCrLfInTwo(a: string, b: string)
    requires !CutsCrLf(a, b)
    ensures ReplaceCrLf(a + b) == ReplaceCrLf(a) + ReplaceCrLf(b)
    decreases |a|
  {
    hide ReplaceCrLf, StartsWithCrLf;
    if a == "" {
      assert a + b == b;
      ReplaceCrLfFront(a);
    } else {
      ReplaceCrLfFront(a);
      ReplaceCrLfFront(a + b);
      FrontOfBoth(a, b);
      var n, front := if StartsWithCrLf(a) then 2 else 1, if StartsWithCrLf(a) then '\n' else a[0];
      ReplaceCrLfInTwo(a[n..], b);
      assert [front] + (ReplaceCrLf(a[n..]) + ReplaceCrLf(b)) == ([front] + ReplaceCrLf(a[n..])) + ReplaceCrLf(b);
    }
  }

  /** A CR LF in front becomes a line feed; any other character stays. */
  lemma ReplaceCrLfFront(s: string)
    ensures s == "" ==> ReplaceCrLf(s) == ""
    ensures StartsWithCrLf(s) ==> |s| > 1 && ReplaceCrLf(s) == ['\n'] + ReplaceCrLf(s[2..])
    ensures !StartsWithCrLf(s) && s != "" ==> ReplaceCrLf(s) == [s[0]] + ReplaceCrLf(s[1..])
  {
  }

  /** Where no CR LF is cut, the whole starts as its first part does, and goes on with the rest of that. */
  lemma FrontOfBoth(a: string, b: string)
    requires a != "" && !CutsCrLf(a, b)
    ensures StartsWithCrLf(a + b) == StartsWithCrLf(a) && (a + b)[0] == a[0]
    ensures (a + b)[1..] == a[1..] + b
    ensures StartsWithCrLf(a) ==> |a| > 1 && (a + b)[2..] == a[2..] + b && !CutsCrLf(a[2..], b)
    ensures !StartsWithCrLf(a) ==> !CutsCrLf(a[1..], b)
  {
  }

  /** A cut CR LF is one line feed in the whole, and a CR and a line feed in the parts. */
  lemma ReplaceCutCrLf(a: string, b: string)
    requires CutsCrLf(a, b)
    ensures var front := a[..|a| - 1];
            ReplaceCrLf(a) == ReplaceCrLf(front) + "\r" && ReplaceCrLf(a + b) == ReplaceCrLf(front) + ReplaceCrLf(b)
  {
    var front := a[..|a| - 1];
    assert a == front + "\r" && a + b == front + ("\r" + b);
    ReplaceCrLfInTwo(front, "\r");
    ReplaceCrLfInTwo(front, "\r" + b);
    assert ("\r" + b)[2..] == b[1..];
  }

  /** Normalising two parts apart is normalising them together if no CR LF is cut; else there is one line feed more. */
  lemma NormalInTwo(a: string, b: string)
    ensures !CutsCrLf(a, b) ==> Normal(a + b) == Normal(a) + Normal(b)
    ensures CutsCrLf(a, b) ==> |Normal(a)| + |Normal(b)| == |Normal(a + b)| + 1
  {
    hide ReplaceCrLf;
    if CutsCrLf(a, b) {
      ReplaceCutCrLf(a, b);
    } else {
      ReplaceCrLfInTwo(a, b);
    }
  }

  predicate Clean(chunks: seq<string>) {
    chunks == [] || (!CutsCrLf(chunks[0], Concat(chunks[1..])) && Clean(chunks[1..]))
  }

  lemma {:induction false} CleanIffNormalOfWhole(chunks: seq<string>)
    ensures Clean(chunks) <==> Normals(chunks) == Normal(Concat(chunks))
    ensures |Normals(chunks)| >= |Normal(Concat(chunks))|
  {
    if chunks != [] {
      CleanIffNormalOfWhole(chunks[1..]);
      NormalInTwo(chunks[0], Concat(chunks[1..]));
      if Normals(chunks) == Normal(Concat(chunks)) && !CutsCrLf(chunks[0], Concat(chunks[1..])) {
        assert Normals(chunks)[|Normal(chunks[0])|..] == Normals(chunks[1..]);
      }
    }
  }

  /**
   * Chunk invariance: as long as no cut falls between a CR and its LF, the events and the final buffer are
   * those of one push of the whole text.
   */
  lemma ChunkInvariance(buf: string, chunks: seq<string>)
    requires FindBlank(buf).None? && Clean(chunks)
    ensures PushAll(buf, chunks) == PushAll(buf, [Concat(chunks)])
  {
    hide Drain, Normal, PushAll;
    PushAllDrains(buf, chunks);
    PushAllDrains(buf, [Concat(chunks)]);
    CleanIffNormalOfWhole(chunks);
    assert [Concat(chunks)][1..] == [];
    assert Normals([]) == "";
    assert Normals([Concat(chunks)]) == Normal(Concat(chunks)) + "" == Normal(Concat(chunks));
  }

  /** The stream read up to anywhere after the cut gives the same as without the cut. */
  ghost predicate CutIsInvisible(buf: string, a: string, b: string) {
    forall seen | seen <= b :: PushAll(buf, [a, seen]) == PushAll(buf, [a + seen])
  }

  /** Exactly the cuts inside a CR LF can be noticed, and each of them is: the buffers differ right after it. */
  lemma OnlyCrLfCutsShow(buf: string, a: string, b: string)
    requires FindBlank(buf).None?
    ensures CutIsInvisible(buf, a, b) <==> !CutsCrLf(a, b)
  {
    if !CutsCrLf(a, b) {
      forall seen | seen <= b
        ensures PushAll(buf, [a, seen]) == PushAll(buf, [a + seen])
      {
        CleanPair(a, seen);
        ChunkInvariance(buf, [a, seen]);
      }
    } else {
      var lf := b[..1];
      assert lf == "\n" && lf <= b;
      CutShows(buf, a);
    }
  }

  // ----- any number of cuts

  /** The chunks as far as they have been read when `n` characters have been. */
  function Upto(chunks: seq<string>, n: nat): seq<string> {
    if chunks == [] then []
    else if n <= |chunks[0]| then [chunks[0][..n]]
    else [chunks[0]] + Upto(chunks[1..], n - |chunks[0]|)
  }

  /** Wherever reading has got to, the chunks so far give the same as one push of their text. */
  ghost predicate CutsAreInvisible(buf: string, chunks: seq<string>) {
    forall n: nat :: n <= |Concat(chunks)| ==> PushAll(buf, Upto(chunks, n)) == PushAll(buf, [Concat(chunks)[..n]])
  }

  /** A cutting goes unnoticed at every moment exactly when no cut falls between a CR and its LF. */
  lemma OnlyCleanCuttingsAreInvisible(buf: string, chunks: seq<string>)
    requires FindBlank(buf).None?
    ensures CutsAreInvisible(buf, chunks) <==> Clean(chunks)
  {
    if Clean(chunks) {
      forall n: nat | n <= |Concat(chunks)|
        ensures PushAll(buf, Upto(chunks, n)) == PushAll(buf, [Concat(chunks)[..n]])
      {
        UptoIsPrefix(chunks, n);
        ChunkInvariance(buf, Upto(chunks, n));
      }
    } else {
      var n := DirtyCutShows(buf, chunks);
    }
  }

  lemma {:induction false} UptoIsPrefix(chunks: seq<string>, n: nat)
    requires n <= |Concat(chunks)|
    ensures Concat(Upto(chunks, n)) == Concat(chunks)[..n]
    ensures Clean(chunks) ==> Clean(Upto(chunks, n))
  {
    if chunks != [] {
      var a, rest := chunks[0], chunks[1..];
      if n <= |a| {
        assert Upto(chunks, n) == [a[..n]] && [a[..n]][1..] == [];
        assert a[..n] + Concat([]) == Concat(chunks)[..n];
      } else {
        UptoIsPrefix(rest, n - |a|);
        assert Upto(chunks, n)[1..] == Upto(rest, n - |a|);
        assert Concat(chunks)[..n] == a + Concat(rest)[..n - |a|];
      }
    }
  }

  /** Right after the first LF that a cut separates from its CR the difference shows. */
  lemma {:induction false} DirtyCutShows(buf: string, chunks: seq<string>) returns (n: nat)
    requires FindBlank(buf).None? && !Clean(chunks)
    ensures 0 < n <= |Concat(chunks)|
    ensures PushAll(buf, Upto(chunks, n)) != PushAll(buf, [Concat(chunks)[..n]])
    decreases |chunks|
  {
    hide Drain, Normal, PushAll;
    var a, rest := chunks[0], chunks[1..];
    if CutsCrLf(a, Concat(rest)) {
      n := |a| + 1;
      UptoIsPrefix(rest, 1);
      assert Concat(rest)[..1] == "\n" && Concat(chunks)[..n] == a + "\n";
      assert Upto(chunks, n) == [a] + Upto(rest, 1);
      CutShowsInChunks(buf, a, Upto(rest, 1));
    } else {
      RestHasNoBlank(buf + Normal(a));
      var kept := Drain(buf + Normal(a)).1;
      var m := DirtyCutShows(kept, rest);
      n := |a| + m;
      var x := Concat(rest)[..m];
      assert Concat(chunks)[..n] == a + x && Upto(chunks, n) == [a] + Upto(rest, m) && [a] + [x] == [a, x];
      CleanPair(a, x);
      ChunkInvariance(buf, [a, x]);
      SameAfterFirst(buf, a, Upto(rest, m), [x]);
    }
  }

  lemma CutShowsInChunks(buf: string, a: string, rest: seq<string>)
    requires FindBlank(buf).None? && a != "" && a[|a| - 1] == '\r' && Concat(rest) == "\n"
    ensures PushAll(buf, [a] + rest) != PushAll(buf, [a + "\n"])
  {
    hide Drain, Normal, PushAll;
    CutShows(buf, a);
    WithoutCrEveryCuttingIsClean(rest);
    CleanIffNormalOfWhole(rest);
    assert ([a] + rest)[1..] == rest && [a, "\n"][1..] == ["\n"] && ["\n"][1..] == [];
    assert Normals(["\n"]) == Normal("\n") + Normals([]) == Normal("\n");
    PushAllDrains(buf, [a] + rest);
    PushAllDrains(buf, [a, "\n"]);
  }

  /** After the same first chunk, what follows makes the whole difference. */
  lemma SameAfterFirst(buf: string, a: string, xs: seq<string>, ys: seq<string>)
    requires PushAll(Drain(buf + Normal(a)).1, xs) != PushAll(Drain(buf + Normal(a)).1, ys)
    ensures PushAll(buf, [a] + xs) != PushAll(buf, [a] + ys)
  {
    hide Drain, Normal;
    var (first, kept) := Drain(buf + Normal(a));
    assert ([a] + xs)[1..] == xs && ([a] + ys)[1..] == ys;
    var p, q := PushAll(kept, xs), PushAll(kept, ys);
    assert (first + p.0)[|first|..] == p.0 && (first + q.0)[|first|..] == q.0;
  }

  lemma CleanPair(a: string, b: string)
    ensures Clean([a, b]) <==> !CutsCrLf(a, b)
    ensures Concat([a, b]) == a + b
  {
    assert [a, b][1..] == [b] && [b][1..] == [];
    assert Concat([b]) == b + Concat([]) == b;
    assert Clean([b]);
  }

  lemma CutShows(buf: string, a: string)
    requires FindBlank(buf).None? && a != "" && a[|a| - 1] == '\r'
    ensures PushAll(buf, [a, "\n"]).1 != PushAll(buf, [a + "\n"]).1
  {
    ReplaceCutCrLf(a, "\n");
    assert ReplaceCrLf("\n") == "\n";
    var x := buf + Normal(a);
    assert Normal(a + "\n") == Normal(a) && Normal("\n") == "\n";
    assert [a, "\n"][1..] == ["\n"] && ["\n"][1..] == [] && [a + "\n"][1..] == [];
    RestHasNoBlank(x);
    var kept := Drain(x).1;
    assert PushAll(buf, [a + "\n"]).1 == kept;
    assert PushAll(kept, ["\n"]).1 == Drain(kept + "\n").1;
    AnotherLineFeed(kept);
  }

  lemma AnotherLineFeed(kept: string)
    requires FindBlank(kept).None?
    ensures Drain(kept + "\n").1 != kept
  {
    var s := kept + "\n";
    FindBlankIsFirst(kept);
    FindBlankIsFirst(s);
    hide FindBlank;
    if FindBlank(s).Some? {
      var i := FindBlank(s).value;
      assert i + 2 <= |kept| ==> BlankAt(kept, i);
      assert s[i + 2..] == "";
      DrainStep(s);
      RestIsShorter(s[i + 2..]);
    } else {
      DrainNothing(s);
    }
  }

  lemma {:induction false} RestIsShorter(s: string)
    ensures |Drain(s).1| <= |s|
    decreases |s|
  {
    if FindBlank(s).Some? {
      DrainStep(s);
      RestIsShorter(s[FindBlank(s).value + 2..]);
    }
  }

  // ----- undoing an encoder

  predicate Encodable(e: SseEvent) {
    '\r' !in e.event && '\n' !in e.event && '\r' !in e.data
  }

  function DataLines(lines: seq<string>): (r: seq<string>)
    ensures |r| == |lines|
  {
    if lines == [] then [] else ["data: " + lines[0]] + DataLines(lines[1..])
  }

  function EncodedLines(e: SseEvent): seq<string> {
    ["event: " + e.event] + DataLines(Split(e.data, '\n'))
  }

  /** One `event:` line, one `data:` line for each line of the data, and a blank line. */
  function Encode(e: SseEvent): string {
    Join(EncodedLines(e), '\n') + "\n\n"
  }

  function EncodeAll(es: seq<SseEvent>): string {
    if es == [] then "" else Encode(es[0]) + EncodeAll(es[1..])
  }

  lemma {:induction false} DataLinesAreLines(lines: seq<string>)
    requires forall i :: 0 <= i < |lines| ==> '\n' !in lines[i] && '\r' !in lines[i]
    ensures forall i :: 0 <= i < |lines| ==> DataLines(lines)[i] == "data: " + lines[i]
    ensures forall i :: 0 <= i < |lines| ==> '\n' !in DataLines(lines)[i] && '\r' !in DataLines(lines)[i]
  {
    if lines != [] {
      DataLinesAreLines(lines[1..]);
    }
  }

  lemma EncodedLinesAreLines(e: SseEvent)
    requires Encodable(e)
    ensures |EncodedLines(e)| == |Split(e.data, '\n')| + 1
    ensures EncodedLines(e)[0] == "event: " + e.event
    ensures forall i :: 0 <= i < |Split(e.data, '\n')| ==> EncodedLines(e)[i + 1] == "data: " + Split(e.data, '\n')[i]
    ensures forall i :: 0 <= i < |EncodedLines(e)| ==>
              EncodedLines(e)[i] != "" && '\n' !in EncodedLines(e)[i] && '\r' !in EncodedLines(e)[i]
  {
    JoinSplit(e.data, '\n');
    SplitKeepsOut(e.data, '\n', '\r');
    DataLinesAreLines(Split(e.data, '\n'));
  }

  /** Non-empty lines without line feeds hold no blank line, and the first one is the terminator. */
  lemma {:induction false} FirstBlankEndsTheBlock(lines: seq<string>, rest: string)
    requires lines != [] && forall i :: 0 <= i < |lines| ==> lines[i] != "" && '\n' !in lines[i]
    ensures FindBlank(Join(lines, '\n') + "\n\n" + rest) == Some(|Join(lines, '\n')|)
  {
    if |lines| == 1 {
      BlankAfterLine(lines[0], "\n" + rest);
      assert lines[0] + ("\n" + ("\n" + rest)) == lines[0] + "\n\n" + rest;
    } else {
      var tail := Join(lines[1..], '\n');
      var after := tail + "\n\n" + rest;
      FirstBlankEndsTheBlock(lines[1..], rest);
      assert after[0] == tail[0] == lines[1][0];
      BlankAfterLine(lines[0], after);
      assert Join(lines, '\n') + "\n\n" + rest == lines[0] + ("\n" + after);
    }
  }

  lemma {:induction false} BlankAfterLine(line: string, after: string)
    requires line != "" && '\n' !in line && after != ""
    ensures FindBlank(line + ("\n" + after))
         == if after[0] == '\n' then Some(|line|)
            else match FindBlank(after) case None => None case Some(i) => Some(|line| + 1 + i)
  {
    var s := line + ("\n" + after);
    if |line| == 1 {
      assert s[0] == line[0] && s[1] == '\n' && s[1..] == "\n" + after;
      assert ("\n" + after)[1..] == after;
    } else {
      assert s[0] == line[0] && s[1] == line[1] && s[1..] == line[1..] + ("\n" + after);
      BlankAfterLine(line[1..], after);
    }
  }

  lemma {:induction false} ChopNothing(lines: seq<string>)
    requires forall i :: 0 <= i < |lines| ==> '\r' !in lines[i]
    ensures ChopAll(lines) == lines
  {
    if lines != [] {
      ChopNothing(lines[1..]);
      assert [lines[0]] + lines[1..] == lines;
    }
  }

  lemma {:induction false} FieldsOfEncoded(name: string, lines: seq<string>, encoded: seq<string>)
    requires |encoded| == |lines| + 1 && encoded[0] == "event: " + name
    requires forall i :: 0 <= i < |lines| ==> encoded[i + 1] == "data: " + lines[i]
    ensures EventOf(encoded) == Some(name) && DataOf(encoded) == lines
    decreases |lines|
  {
    var last := encoded[|encoded| - 1];
    if lines == [] {
      assert encoded[..0] == [];
      assert "event: " + name == "event:" + ([' '] + name);
      FieldsDiffer(last);
      assert FieldOf(last, "event:") == Some(name);
    } else {
      var value := lines[|lines| - 1];
      assert last == "data: " + value == "data:" + ([' '] + value);
      assert last[0] == 'd';
      assert FieldOf(last, "data:") == Some(value);
      FieldsOfEncoded(name, lines[..|lines| - 1], encoded[..|encoded| - 1]);
      assert lines[..|lines| - 1] + [value] == lines;
    }
  }

  /** One encoded event at the front of a stream is drained as that event. */
  lemma DrainOneEvent(e: SseEvent, rest: string)
    requires Encodable(e)
    ensures Drain(Encode(e) + rest) == ([e] + Drain(rest).0, Drain(rest).1)
  {
    var lines := EncodedLines(e);
    var block := Join(lines, '\n');
    EncodedLinesAreLines(e);
    FirstBlankEndsTheBlock(lines, rest);
    assert Encode(e) + rest == block + "\n\n" + rest;
    assert (block + "\n\n" + rest)[..|block|] == block && (block + "\n\n" + rest)[|block| + 2..] == rest;
    LinesOfJoin(lines);
    FieldsOfEncoded(e.event, Split(e.data, '\n'), lines);
    JoinSplit(e.data, '\n');
    assert BlockOf(lines) == Some(e);
  }

  lemma LinesOfJoin(lines: seq<string>)
    requires lines != [] && forall i :: 0 <= i < |lines| ==> lines[i] != "" && '\n' !in lines[i] && '\r' !in lines[i]
    ensures Lines(Join(lines, '\n')) == lines
  {
    hide Join, Split, ChopAll, Lines;
    SplitJoin(lines, '\n');
    ChopNothing(lines[..|lines| - 1]);
    LinesOfPieces(Join(lines, '\n'), lines);
  }

  lemma LinesOfPieces(s: string, pieces: seq<string>)
    requires pieces != [] && Split(s, '\n') == pieces && pieces[|pieces| - 1] != ""
    requires ChopAll(pieces[..|pieces| - 1]) == pieces[..|pieces| - 1]
    ensures Lines(s) == pieces
  {
    hide Split, ChopAll;
    assert pieces[..|pieces| - 1] + [pieces[|pieces| - 1]] == pieces;
  }

  lemma {:induction false} DrainEncoded(es: seq<SseEvent>)
    requires forall e :: e in es ==> Encodable(e)
    ensures Drain(EncodeAll(es)) == (es, "")
  {
    if es != [] {
      DrainEncoded(es[1..]);
      DrainOneEvent(es[0], EncodeAll(es[1..]));
      assert [es[0]] + es[1..] == es;
    }
  }

  lemma {:induction false} NothingToNormalise(s: string)
    requires '\r' !in s
    ensures Normal(s) == s
    decreases |s|
  {
    if s != "" {
      assert s == [s[0]] + s[1..];
      NothingToNormalise(s[1..]);
    }
  }

  lemma {:induction false} EncodedHasNoCr(es: seq<SseEvent>)
    requires forall e :: e in es ==> Encodable(e)
    ensures '\r' !in EncodeAll(es)
  {
    if es != [] {
      EncodedHasNoCr(es[1..]);
      EncodedLinesAreLines(es[0]);
      JoinHasNoCr(EncodedLines(es[0]));
    }
  }

  lemma {:induction false} JoinHasNoCr(lines: seq<string>)
    requires lines != [] && forall i :: 0 <= i < |lines| ==> '\r' !in lines[i]
    ensures '\r' !in Join(lines, '\n')
  {
    if |lines| > 1 {
      JoinHasNoCr(lines[1..]);
    }
  }

  lemma {:induction false} WithoutCrEveryCuttingIsClean(chunks: seq<string>)
    requires '\r' !in Concat(chunks)
    ensures Clean(chunks)
  {
    if chunks != [] {
      WithoutCrEveryCuttingIsClean(chunks[1..]);
    }
  }

  /**
   * Round trip: encode any events with names on one line and data without CR, cut the text anywhere, and
   * the decoder gives back exactly those events and keeps nothing.
   */
  lemma RoundTrip(es: seq<SseEvent>, chunks: seq<string>)
    requires forall e :: e in es ==> Encodable(e)
    requires Concat(chunks) == EncodeAll(es)
    ensures PushAll("", chunks) == (es, "")
  {
    EncodedHasNoCr(es);
    WithoutCrEveryCuttingIsClean(chunks);
    PushAllDrains("", chunks);
    CleanIffNormalOfWhole(chunks);
    NothingToNormalise(EncodeAll(es));
    assert "" + EncodeAll(es) == EncodeAll(es);
    DrainEncoded(es);
  }
}
