/** Which tool paths are accepted, as which names, and which are refused. */
module ToolPaths {
  import opened Wrappers
  import opened FileTree
  import opened Errors
  import opened Text
  import opened Sandbox

  // ----- what trimming leaves

  lemma {:induction false} TrimStartDrops(blank: string, text: string)
    requires AllBlank(blank) && (text != "" ==> !IsWhitespace(text[0]))
    ensures TrimStart(blank + text) == text
    decreases |blank|
  {
    if blank == "" {
      assert blank + text == text;
    } else {
      assert (blank + text)[0] == blank[0] && (blank + text)[1..] == blank[1..] + text;
      TrimStartDrops(blank[1..], text);
    }
  }

  lemma {:induction false} TrimEndDrops(text: string, blank: string)
    requires AllBlank(blank) && (text != "" ==> !IsWhitespace(text[|text| - 1]))
    ensures TrimEnd(text + blank) == text
    decreases |blank|
  {
    if blank == "" {
      assert text + blank == text;
    } else {
      var s, n := text + blank, |blank| - 1;
      assert s[|s| - 1] == blank[n] && s[..|s| - 1] == text + blank[..n];
      TrimEndDrops(text, blank[..n]);
    }
  }

  /** Blanks on both sides go, and nothing else. */
  lemma TrimDrops(before: string, text: string, after: string)
    requires AllBlank(before) && AllBlank(after)
    requires text != "" ==> !IsWhitespace(text[0]) && !IsWhitespace(text[|text| - 1])
    ensures Trim(before + text + after) == text
  {
    if text == "" {
      assert before + text + after == (before + after) + "";
      TrimStartDrops(before + after, "");
    } else {
      assert before + text + after == before + (text + after);
      TrimStartDrops(before, text + after);
      TrimEndDrops(text, after);
    }
  }

  /** ASCII blanks are the tab, the line breaks and the space. */
  lemma AsciiBlanks(c: char)
    requires c < '\U{80}'
    ensures IsWhitespace(c) <==> c in {'\t', '\n', '\U{B}', '\U{C}', '\r', ' '}
  {
  }

  // ----- pieces between separators

  /** A piece without a meaning. */
  predicate Noise(piece: string) {
    piece == "" || piece == "."
  }

  function WithoutNoise(pieces: seq<string>): seq<string> {
    if pieces == [] then []
    else if Noise(pieces[0]) then WithoutNoise(pieces[1..])
    else [pieces[0]] + WithoutNoise(pieces[1..])
  }

  /** No separator, colon or NUL. */
  predicate Clean(piece: string) {
    forall i :: 0 <= i < |piece| ==> piece[i] !in {'/', '\\', ':', '\0'}
  }

  /** Each piece is noise or a name that ends in neither a dot nor a space. */
  predicate Good(pieces: seq<string>) {
    forall i :: 0 <= i < |pieces| ==>
      Clean(pieces[i]) && (Noise(pieces[i]) || pieces[i][|pieces[i]| - 1] !in {'.', ' '})
  }

  lemma {:induction false} GoodPiecesAreNames(pieces: seq<string>)
    requires Good(pieces)
    ensures forall i :: 0 <= i < |pieces| ==> SafePiece(pieces[i])
    ensures Names(pieces).Success? && Names(pieces).value == WithoutNoise(pieces)
  {
    if pieces != [] {
      assert Clean(pieces[0]) && (Noise(pieces[0]) || pieces[0][|pieces[0]| - 1] !in {'.', ' '});
      GoodPiecesAreNames(pieces[1..]);
    }
  }

  /** The first piece that is not good decides why a path is refused. */
  lemma {:induction false} FirstBadPiece(good: seq<string>, bad: string, rest: seq<string>)
    requires Good(good) && bad != "" && bad != "." && forall i :: 0 <= i < |rest| ==> Clean(rest[i])
    requires Clean(bad) && (bad == ".." || bad[|bad| - 1] in {'.', ' '})
    ensures forall i :: 0 <= i < |good + [bad] + rest| ==> SafePiece((good + [bad] + rest)[i])
    ensures Names(good + [bad] + rest) == Failure(if bad == ".." then PathEscape else BadPath)
    decreases |good|
  {
    var pieces := good + [bad] + rest;
    if good != [] {
      assert pieces[0] == good[0] && pieces[1..] == good[1..] + [bad] + rest;
      assert Clean(good[0]) && (Noise(good[0]) || good[0][|good[0]| - 1] !in {'.', ' '});
      FirstBadPiece(good[1..], bad, rest);
    }
  }

  // ----- whole tool paths

  /** `text` is the pieces with a slash or a backslash between each two of them. */
  predicate Written(text: string, pieces: seq<string>) {
    pieces != [] && Replace(text, '\\', '/') == Join(pieces, '/')
  }

  lemma {:induction false} ReplaceKeepsBlanks(s: string)
    ensures AllBlank(s) ==> Replace(s, '\\', '/') == s
  {
    if AllBlank(s) {
      assert !IsWhitespace('\\');
      assert forall i :: 0 <= i < |s| ==> IsWhitespace(s[i]);
    }
  }

  /** Trimming and turning backslashes into slashes do not get in each other's way. */
  lemma TrimOfReplaced(before: string, text: string, after: string)
    requires AllBlank(before) && AllBlank(after)
    requires text != "" ==> !IsWhitespace(text[0]) && !IsWhitespace(text[|text| - 1])
    ensures Trim(Replace(before + text + after, '\\', '/')) == Replace(text, '\\', '/')
  {
    var slashed := Replace(text, '\\', '/');
    ReplaceKeepsBlanks(before);
    ReplaceKeepsBlanks(after);
    assert !IsWhitespace('/');
    assert Replace(before + text + after, '\\', '/') == before + slashed + after;
    TrimDrops(before, slashed, after);
  }

  /**
   * With any blanks around it, a slash or a backslash between any two pieces, and empty pieces and `.` in between,
   * a path is accepted as exactly its names.
   */
  lemma AcceptedAsItsNames(before: string, text: string, after: string, pieces: seq<string>)
    requires AllBlank(before) && AllBlank(after) && Written(text, pieces) && Good(pieces)
    requires text != "" && !IsWhitespace(text[0]) && !IsWhitespace(text[|text| - 1])
    requires text[0] != '/' && text[0] != '\\' && '\0' !in text && ':' !in text
    ensures RelativePath(before + text + after).Success?
    ensures RelativePath(before + text + after).value == WithoutNoise(pieces)
  {
    var rel, slashed := before + text + after, Replace(text, '\\', '/');
    TrimOfReplaced(before, text, after);
    BlanksAreSafe(before);
    BlanksAreSafe(after);
    GoodPiecesAreNames(pieces);
    PiecesOf(slashed, pieces);
    if slashed == "." {
      SplitNone(slashed, '/');
      assert pieces == ["."] && pieces[1..] == [];
    }
    hide Names, Trim, Replace, Split;
    assert slashed[0] != '/';
  }

  /** `..` and names that end with a dot or a space are refused, whatever comes after the first of them. */
  lemma RefusedForAPiece(before: string, text: string, after: string, good: seq<string>, bad: string, rest: seq<string>)
    requires AllBlank(before) && AllBlank(after) && Written(text, good + [bad] + rest)
    requires text != "" && !IsWhitespace(text[0]) && !IsWhitespace(text[|text| - 1])
    requires text[0] != '/' && text[0] != '\\' && '\0' !in text && ':' !in text
    requires Good(good) && bad != "" && bad != "." && forall i :: 0 <= i < |rest| ==> Clean(rest[i])
    requires Clean(bad) && (bad == ".." || bad[|bad| - 1] in {'.', ' '})
    ensures RelativePath(before + text + after) == Failure(if bad == ".." then PathEscape else BadPath)
  {
    var rel, slashed, pieces := before + text + after, Replace(text, '\\', '/'), good + [bad] + rest;
    TrimOfReplaced(before, text, after);
    BlanksAreSafe(before);
    BlanksAreSafe(after);
    FirstBadPiece(good, bad, rest);
    PiecesOf(slashed, pieces);
    SplitNone(".", '/');
    assert bad in pieces;
    hide Names, Trim, Replace, Split;
    assert slashed[0] != '/';
  }

  /** The other refusals, and the path that names `files` itself. */
  lemma RefusedAsAWhole(before: string, text: string, after: string)
    requires AllBlank(before) && AllBlank(after)
    requires text != "" ==> !IsWhitespace(text[0]) && !IsWhitespace(text[|text| - 1])
    ensures '\0' in text ==> RelativePath(before + text + after) == Failure(BadPath)
    ensures '\0' !in text && ':' in text ==> RelativePath(before + text + after) == Failure(PathEscape)
    ensures '\0' !in text && ':' !in text && text != "" && text[0] in {'/', '\\'} ==>
              RelativePath(before + text + after) == Failure(PathEscape)
    ensures text == "" ==> RelativePath(before + text + after) == Success([])
  {
    var rel := before + text + after;
    BlanksAreSafe(before);
    BlanksAreSafe(after);
    TrimOfReplaced(before, text, after);
    hide Trim, Names, Split;
    if '\0' in text {
      var i :| 0 <= i < |text| && text[i] == '\0';
      assert rel[|before| + i] == '\0';
    } else if ':' in text {
      var i :| 0 <= i < |text| && text[i] == ':';
      assert rel[|before| + i] == ':';
    }
  }

  lemma BlanksAreSafe(blank: string)
    requires AllBlank(blank)
    ensures '\0' !in blank && ':' !in blank
  {
    assert !IsWhitespace('\0') && !IsWhitespace(':');
  }

  lemma PiecesOf(slashed: string, pieces: seq<string>)
    requires pieces != [] && slashed == Join(pieces, '/')
    requires forall i :: 0 <= i < |pieces| ==> SafePiece(pieces[i])
    ensures Split(slashed, '/') == pieces
  {
    SplitJoin(pieces, '/');
  }
}
