/**
 * Everything a server may write, and what it means: fields with or without a space after the colon, comments and
 * other fields, blocks without an `event:` line or without any field, and all three line endings.
 */
module SseWire {
  import opened Wrappers
  import opened Text
  import opened Sse

  /** A line of a block. `spaced` is whether a space is written between the colon and the value. */
  datatype WireLine =
    | EventLine(value: string, spaced: bool)
    | DataLine(value: string, spaced: bool)
    | Ignored(text: string)

  predicate OneLine(s: string) {
    '\n' !in s && '\r' !in s
  }

  /** A value that begins with a space needs the space in front of it. */
  predicate Writable(line: WireLine) {
    match line
    case Ignored(text) => OneLine(text) && text != "" && !("event:" <= text) && !("data:" <= text)
    case _ => OneLine(line.value) && (line.spaced || line.value == "" || line.value[0] != ' ')
  }

  function Rendered(line: WireLine): string {
    match line
    case EventLine(value, spaced) => "event:" + (if spaced then " " else "") + value
    case DataLine(value, spaced) => "data:" + (if spaced then " " else "") + value
    case Ignored(text) => text
  }

  /** The name on the last `event:` line. */
  function NameOn(block: seq<WireLine>): Option<string> {
    if block == [] then None
    else match block[|block| - 1]
      case EventLine(value, _) => Some(value)
      case _ => NameOn(block[..|block| - 1])
  }

  /** The values on the `data:` lines, in order. */
  function DataOn(block: seq<WireLine>): seq<string> {
    if block == [] then []
    else match block[|block| - 1]
      case DataLine(value, _) => DataOn(block[..|block| - 1]) + [value]
      case _ => DataOn(block[..|block| - 1])
  }

  /** The event of a block: named `message` by default, with its data lines joined, and none without any field. */
  function Meant(block: seq<WireLine>): seq<SseEvent> {
    match (NameOn(block), DataOn(block))
    case (None, data) => if data == [] then [] else [SseEvent("message", Join(data, '\n'))]
    case (Some(name), data) => [SseEvent(name, if data == [] then "" else Join(data, '\n'))]
  }

  function RenderedLines(block: seq<WireLine>): (lines: seq<string>)
    ensures |lines| == |block|
    ensures forall i :: 0 <= i < |block| ==> lines[i] == Rendered(block[i])
  {
    seq(|block|, i requires 0 <= i < |block| => Rendered(block[i]))
  }

  function BlockText(block: seq<WireLine>): string {
    (if block == [] then "" else Join(RenderedLines(block), '\n')) + "\n\n"
  }

  function StreamText(blocks: seq<seq<WireLine>>): string {
    if blocks == [] then "" else BlockText(blocks[0]) + StreamText(blocks[1..])
  }

  function AllMeant(blocks: seq<seq<WireLine>>): seq<SseEvent> {
    if blocks == [] then [] else Meant(blocks[0]) + AllMeant(blocks[1..])
  }

  // ----- fields

  /** With a space after the colon the field has exactly the value; without it too, unless the value begins with one. */
  lemma FieldLaw(field: string, value: string)
    ensures FieldOf(field + " " + value, field) == Some(value)
    ensures value == "" || value[0] != ' ' ==> FieldOf(field + value, field) == Some(value)
  {
    assert field + " " + value == field + (" " + value);
    assert (field + (" " + value))[|field|..] == " " + value && (field + value)[|field|..] == value;
    assert (" " + value)[1..] == value;
  }

  lemma RenderedFields(line: WireLine)
    requires Writable(line)
    ensures FieldOf(Rendered(line), "event:") == if line.EventLine? then Some(line.value) else None
    ensures FieldOf(Rendered(line), "data:") == if line.DataLine? then Some(line.value) else None
    ensures Rendered(line) != "" && OneLine(Rendered(line))
  {
    hide StripOneSpace;
    FieldsDiffer(Rendered(line));
    match line
    case EventLine(value, spaced) =>
      FieldLaw("event:", value);
      assert "event:" + "" + value == "event:" + value;
      assert "event:" <= Rendered(line);
    case DataLine(value, spaced) =>
      FieldLaw("data:", value);
      assert "data:" + "" + value == "data:" + value;
      assert "data:" <= Rendered(line);
    case Ignored(text) =>
  }

  lemma {:induction false} BlockFields(block: seq<WireLine>)
    requires forall i :: 0 <= i < |block| ==> Writable(block[i])
    ensures EventOf(RenderedLines(block)) == NameOn(block) && DataOf(RenderedLines(block)) == DataOn(block)
  {
    hide FieldOf, Rendered, Writable;
    if block != [] {
      var front := block[..|block| - 1];
      assert RenderedLines(block)[..|block| - 1] == RenderedLines(front);
      BlockFields(front);
      RenderedFields(block[|block| - 1]);
    }
  }

  lemma BlockIsMeant(block: seq<WireLine>)
    requires forall i :: 0 <= i < |block| ==> Writable(block[i])
    ensures Emit(BlockOf(RenderedLines(block))) == Meant(block)
  {
    hide RenderedLines;
    BlockFields(block);
  }

  // ----- streams

  /** A block in front of any text is drained as its event, if it has one. */
  lemma DrainOneBlock(block: seq<WireLine>, rest: string)
    requires forall i :: 0 <= i < |block| ==> Writable(block[i])
    ensures Drain(BlockText(block) + rest) == (Meant(block) + Drain(rest).0, Drain(rest).1)
  {
    hide Drain, BlockOf, Lines, Rendered, Writable;
    var lines := RenderedLines(block);
    var text := if block == [] then "" else Join(lines, '\n');
    forall i | 0 <= i < |block|
      ensures lines[i] != "" && OneLine(lines[i])
    {
      RenderedFields(block[i]);
    }
    assert BlockText(block) + rest == text + "\n\n" + rest;
    if block == [] {
      assert text + "\n\n" + rest == "\n\n" + rest;
      LinesOfNothing();
      assert lines == [];
    } else {
      FirstBlankEndsTheBlock(lines, rest);
      LinesOfJoin(lines);
    }
    DrainStep(text + "\n\n" + rest);
    assert (text + "\n\n" + rest)[..|text|] == text && (text + "\n\n" + rest)[|text| + 2..] == rest;
    BlockIsMeant(block);
  }

  lemma LinesOfNothing()
    ensures Lines("") == []
  {
  }

  lemma {:induction false} DrainBlocks(blocks: seq<seq<WireLine>>)
    requires forall b :: b in blocks ==> forall i :: 0 <= i < |b| ==> Writable(b[i])
    ensures Drain(StreamText(blocks)) == (AllMeant(blocks), "")
  {
    hide Drain, Writable, BlockText, Meant;
    if blocks == [] {
      DrainNothing("");
    } else {
      assert blocks[0] in blocks;
      DrainBlocks(blocks[1..]);
      DrainOneBlock(blocks[0], StreamText(blocks[1..]));
    }
  }

  // ----- line endings

  function WithEnding(s: string, ending: string): string {
    if s == "" then "" else (if s[0] == '\n' then ending else [s[0]]) + WithEnding(s[1..], ending)
  }

  lemma {:induction false} NoFeedLeft(s: string)
    ensures '\n' !in WithEnding(s, "\r")
  {
    if s != "" {
      NoFeedLeft(s[1..]);
    }
  }

  /** CR LF and CR are read as LF. */
  lemma {:induction false} NormalUndoesEnding(s: string, ending: string)
    requires '\r' !in s && ending in {"\n", "\r\n", "\r"}
    ensures Normal(WithEnding(s, ending)) == s
    decreases |s|
  {
    if s != "" {
      var front, rest := if s[0] == '\n' then ending else [s[0]], WithEnding(s[1..], ending);
      assert s == [s[0]] + s[1..];
      NormalUndoesEnding(s[1..], ending);
      NoFeedLeft(s[1..]);
      assert !CutsCrLf(front, rest);
      NormalInTwo(front, rest);
      NormalOfOne(s[0]);
    }
  }

  lemma NormalOfOne(c: char)
    ensures c != '\r' ==> Normal([c]) == [c]
    ensures Normal("\r\n") == "\n" && Normal("\r") == "\n"
  {
    assert ReplaceCrLf([c]) == [c] + ReplaceCrLf("");
    assert "\r\n"[2..] == "" && ReplaceCrLf("\r\n") == "\n" + ReplaceCrLf("") == "\n";
    assert "\r"[1..] == "" && ReplaceCrLf("\r") == "\r" + ReplaceCrLf("") == "\r";
  }

  /**
   * Round trip for everything a server may write: any blocks, with any of the three line endings, cut anywhere but
   * between a CR and its LF, are decoded to exactly the events they mean, and nothing is kept.
   */
  lemma WireRoundTrip(blocks: seq<seq<WireLine>>, ending: string, chunks: seq<string>)
    requires forall b :: b in blocks ==> forall i :: 0 <= i < |b| ==> Writable(b[i])
    requires ending in {"\n", "\r\n", "\r"} && Concat(chunks) == WithEnding(StreamText(blocks), ending) && Clean(chunks)
    ensures PushAll("", chunks) == (AllMeant(blocks), "")
  {
    hide Drain, Normal, PushAll, Writable;
    StreamHasNoCr(blocks);
    NormalUndoesEnding(StreamText(blocks), ending);
    PushAllDrains("", chunks);
    CleanIffNormalOfWhole(chunks);
    assert "" + StreamText(blocks) == StreamText(blocks);
    DrainBlocks(blocks);
  }

  lemma {:induction false} StreamHasNoCr(blocks: seq<seq<WireLine>>)
    requires forall b :: b in blocks ==> forall i :: 0 <= i < |b| ==> Writable(b[i])
    ensures '\r' !in StreamText(blocks)
  {
    hide Writable, Rendered;
    if blocks != [] {
      var block := blocks[0];
      assert block in blocks;
      StreamHasNoCr(blocks[1..]);
      forall i | 0 <= i < |block|
        ensures '\r' !in RenderedLines(block)[i]
      {
        RenderedFields(block[i]);
      }
      if block != [] {
        JoinHasNoCr(RenderedLines(block));
      }
    }
  }
}
