/**
 * Literal search queries: the tokenizer, and matching with all terms required. Case folding is any
 * function on single characters, so it keeps the number of characters, but not their bytes.
 */
module Query {
  import opened Wrappers
  import opened Text
  import opened Utf8

  type Fold = char -> char

  function Lower(s: string, fold: Fold): (r: string)
    ensures |r| == |s| && forall i :: 0 <= i < |s| ==> r[i] == fold(s[i])
  {
    seq(|s|, i requires 0 <= i < |s| => fold(s[i]))
  }

  // ----- tokenizing

  /** The text up to the next quote, and what follows the quote. */
  function UpToQuote(s: string): (string, string) {
    if s == "" then ("", "")
    else if s[0] == '"' then ("", s[1..])
    else var (front, rest) := UpToQuote(s[1..]); ([s[0]] + front, rest)
  }

  /** The text up to the next whitespace, and the rest from there. */
  function UpToSpace(s: string): (string, string) {
    if s == "" || IsWhitespace(s[0]) then ("", s)
    else var (front, rest) := UpToSpace(s[1..]); ([s[0]] + front, rest)
  }

  lemma {:induction false} UpToShortens(s: string)
    ensures |UpToQuote(s).1| <= |s| && |UpToSpace(s).1| <= |s|
    ensures s != "" && !IsWhitespace(s[0]) ==> |UpToSpace(s).1| < |s|
  {
    if s != "" {
      UpToShortens(s[1..]);
    }
  }

  function Tokens(s: string, fold: Fold): seq<string>
    decreases |s|
  {
    UpToShortens(s);
    if s == "" then []
    else if IsWhitespace(s[0]) then Tokens(s[1..], fold)
    else if s[0] == '"' then
      UpToShortens(s[1..]);
      var (phrase, rest) := UpToQuote(s[1..]);
      (if phrase != "" then [Lower(phrase, fold)] else []) + Tokens(rest, fold)
    else
      var (word, rest) := UpToSpace(s);
      [Lower(word, fold)] + Tokens(rest, fold)
  }

  function Kept(buf: string, fold: Fold): seq<string> {
    if buf != "" then [Lower(buf, fold)] else []
  }

  /** What one turn of the tokenizer takes off the front of the text. */
  lemma TokensStep(s: string, fold: Fold)
    requires s != ""
    ensures IsWhitespace(s[0]) ==> Tokens(s, fold) == Tokens(s[1..], fold)
    ensures s[0] == '"' ==> Tokens(s, fold) == Kept(UpToQuote(s[1..]).0, fold) + Tokens(UpToQuote(s[1..]).1, fold)
    ensures !IsWhitespace(s[0]) && s[0] != '"' ==>
              Tokens(s, fold) == Kept(UpToSpace(s).0, fold) + Tokens(UpToSpace(s).1, fold)
  {
  }

  /** The cursor over the characters is a position in `raw`. */
  method TokenizeLiteral(raw: string, fold: Fold) returns (tokens: seq<string>)
    ensures tokens == Tokens(raw, fold)
  {
    hide Tokens, UpToQuote, UpToSpace, Lower, IsWhitespace;
    tokens := [];
    var at := 0;
    assert raw[0..] == raw && [] + Tokens(raw, fold) == Tokens(raw, fold);
    while at < |raw|
      invariant 0 <= at <= |raw|
      invariant tokens + Tokens(raw[at..], fold) == Tokens(raw, fold)
    {
      ghost var start := at;
      TokensStep(raw[start..], fold);
      assert raw[start..][1..] == raw[start + 1..];
      if IsWhitespace(raw[at]) {
        at := at + 1;
        continue;
      }
      var buf;
      if raw[at] == '"' {
        buf, at := TakePhrase(raw, at + 1);
      } else {
        buf, at := TakeWord(raw, at);
      }
      ghost var rest := Tokens(raw[at..], fold);
      assert tokens + (Kept(buf, fold) + rest) == (tokens + Kept(buf, fold)) + rest;
      assert tokens + [] == tokens;
      if buf != "" {
        tokens := tokens + [Lower(buf, fold)];
      }
    }
    assert Tokens("", fold) == [] by {
      TokensOfNothing(fold);
    }
    assert raw[at..] == "" && tokens + [] == tokens;
  }

  lemma TokensOfNothing(fold: Fold)
    ensures Tokens("", fold) == []
  {
  }

  /** Characters up to a closing quote, which is consumed, or to the end. */
  method TakePhrase(raw: string, from: nat) returns (buf: string, at: nat)
    requires from <= |raw|
    ensures from <= at <= |raw| && UpToQuote(raw[from..]) == (buf, raw[at..])
  {
    buf, at := "", from;
    assert buf + UpToQuote(raw[at..]).0 == UpToQuote(raw[at..]).0;
    while at < |raw|
      invariant from <= at <= |raw|
      invariant UpToQuote(raw[from..]) == (buf + UpToQuote(raw[at..]).0, UpToQuote(raw[at..]).1)
    {
      assert raw[at..][1..] == raw[at + 1..];
      at := at + 1;
      if raw[at - 1] == '"' {
        assert buf + "" == buf;
        return;
      }
      assert buf + ([raw[at - 1]] + UpToQuote(raw[at..]).0) == (buf + [raw[at - 1]]) + UpToQuote(raw[at..]).0;
      buf := buf + [raw[at - 1]];
    }
    assert raw[at..] == "" && buf + "" == buf;
  }

  /** Characters up to whitespace, which is left in place. */
  method TakeWord(raw: string, from: nat) returns (buf: string, at: nat)
    requires from < |raw| && !IsWhitespace(raw[from])
    ensures from < at <= |raw| && buf != "" && UpToSpace(raw[from..]) == (buf, raw[at..])
  {
    buf, at := "", from;
    assert buf + UpToSpace(raw[at..]).0 == UpToSpace(raw[at..]).0;
    while at < |raw| && !IsWhitespace(raw[at])
      invariant from <= at <= |raw| && |buf| == at - from
      invariant UpToSpace(raw[from..]) == (buf + UpToSpace(raw[at..]).0, UpToSpace(raw[at..]).1)
    {
      assert raw[at..][1..] == raw[at + 1..];
      assert buf + ([raw[at]] + UpToSpace(raw[at + 1..]).0) == (buf + [raw[at]]) + UpToSpace(raw[at + 1..]).0;
      buf := buf + [raw[at]];
      at := at + 1;
    }
    assert buf + "" == buf;
  }

  datatype ParseError = Empty

  method ParseLiteral(raw: string, fold: Fold) returns (r: Result<seq<string>, ParseError>)
    ensures r == if Tokens(raw, fold) == [] then Failure(Empty) else Success(Tokens(raw, fold))
  {
    var terms := TokenizeLiteral(raw, fold);
    r := if terms == [] then Failure(Empty) else Success(terms);
  }

  lemma {:induction false} TokensAreNotEmpty(s: string, fold: Fold)
    ensures forall i :: 0 <= i < |Tokens(s, fold)| ==> Tokens(s, fold)[i] != ""
    decreases |s|
  {
    UpToShortens(s);
    if s != "" {
      UpToShortens(s[1..]);
      if IsWhitespace(s[0]) {
        TokensAreNotEmpty(s[1..], fold);
      } else if s[0] == '"' {
        TokensAreNotEmpty(UpToQuote(s[1..]).1, fold);
      } else {
        TokensAreNotEmpty(UpToSpace(s).1, fold);
      }
    }
  }

  // ----- printing terms, and reading them back

  /** A term that can be written in quotes. */
  predicate Quotable(term: string) {
    term != "" && '"' !in term
  }

  /** A term that can be written without quotes. */
  predicate Bare(term: string) {
    term != "" && term[0] != '"' && forall i :: 0 <= i < |term| ==> !IsWhitespace(term[i])
  }

  /** Each term in quotes or bare, as `quoted` says, and after each of them a gap. */
  function Print(terms: seq<string>, quoted: seq<bool>, gaps: seq<string>): string
    requires |quoted| == |gaps| == |terms|
  {
    if terms == [] then ""
    else (if quoted[0] then "\"" + terms[0] + "\"" else terms[0]) + gaps[0] + Print(terms[1..], quoted[1..], gaps[1..])
  }

  /** Gaps are blank, and one that follows a bare term with more behind it is not empty. */
  predicate Printable(terms: seq<string>, quoted: seq<bool>, gaps: seq<string>) {
    && |quoted| == |gaps| == |terms|
    && (forall i :: 0 <= i < |terms| ==> if quoted[i] then Quotable(terms[i]) else Bare(terms[i]))
    && (forall i :: 0 <= i < |terms| ==> AllBlank(gaps[i]))
    && (forall i :: 0 <= i < |terms| - 1 ==> !quoted[i] ==> gaps[i] != "")
  }

  function LowerAll(terms: seq<string>, fold: Fold): (r: seq<string>)
    ensures |r| == |terms| && forall i :: 0 <= i < |terms| ==> r[i] == Lower(terms[i], fold)
  {
    seq(|terms|, i requires 0 <= i < |terms| => Lower(terms[i], fold))
  }

  lemma {:induction false} UpToQuoteStops(term: string, rest: string)
    requires '"' !in term
    ensures UpToQuote(term + "\"" + rest) == (term, rest)
  {
    var s := term + "\"" + rest;
    if term == "" {
      assert s[0] == '"' && s[1..] == rest;
    } else {
      assert s[0] == term[0] && s[1..] == term[1..] + "\"" + rest;
      UpToQuoteStops(term[1..], rest);
      assert [term[0]] + term[1..] == term;
    }
  }

  lemma {:induction false} UpToQuoteEnds(term: string)
    requires '"' !in term
    ensures UpToQuote(term) == (term, "")
  {
    if term != "" {
      UpToQuoteEnds(term[1..]);
      assert [term[0]] + term[1..] == term;
    }
  }

  lemma {:induction false} UpToSpaceStops(term: string, rest: string)
    requires forall i :: 0 <= i < |term| ==> !IsWhitespace(term[i])
    requires rest == "" || IsWhitespace(rest[0])
    ensures UpToSpace(term + rest) == (term, rest)
  {
    var s := term + rest;
    if term == "" {
      assert s == rest;
    } else {
      assert s[0] == term[0] && s[1..] == term[1..] + rest;
      UpToSpaceStops(term[1..], rest);
      assert [term[0]] + term[1..] == term;
    }
  }

  lemma {:induction false} BlanksGiveNothing(blank: string, s: string, fold: Fold)
    requires AllBlank(blank)
    ensures Tokens(blank + s, fold) == Tokens(s, fold)
    decreases |blank|
  {
    hide Tokens;
    if blank == "" {
      assert blank + s == s;
    } else {
      assert (blank + s)[0] == blank[0] && (blank + s)[1..] == blank[1..] + s;
      TokensStep(blank + s, fold);
      BlanksGiveNothing(blank[1..], s, fold);
    }
  }

  /** A term in quotes at the front, or one without quotes up to a blank or the end, is the first token, folded. */
  lemma FirstTerm(term: string, quoted: bool, rest: string, fold: Fold)
    requires if quoted then Quotable(term) else Bare(term) && (rest == "" || IsWhitespace(rest[0]))
    ensures Tokens((if quoted then "\"" + term + "\"" else term) + rest, fold)
         == [Lower(term, fold)] + Tokens(rest, fold)
  {
    hide Tokens, Lower, UpToQuote, UpToSpace;
    var s := (if quoted then "\"" + term + "\"" else term) + rest;
    TokensStep(s, fold);
    assert !IsWhitespace('"');
    if quoted {
      assert s[0] == '"' && s[1..] == term + "\"" + rest;
      UpToQuoteStops(term, rest);
    } else {
      assert s[0] == term[0];
      UpToSpaceStops(term, rest);
    }
  }

  /**
   * Round trip: terms printed in quotes, or bare where that is possible, with any blanks in front of, between and
   * behind them, tokenize to themselves, folded.
   */
  lemma {:induction false} PrintedTermsComeBack(lead: string, terms: seq<string>, quoted: seq<bool>, gaps: seq<string>,
                                                fold: Fold)
    requires AllBlank(lead) && Printable(terms, quoted, gaps)
    ensures Tokens(lead + Print(terms, quoted, gaps), fold) == LowerAll(terms, fold)
    decreases |terms|
  {
    hide Tokens, Lower, AllBlank;
    BlanksGiveNothing(lead, Print(terms, quoted, gaps), fold);
    if terms == [] {
      TokensOfNothing(fold);
    } else {
      var others := Print(terms[1..], quoted[1..], gaps[1..]);
      PrintedTermsComeBack(gaps[0], terms[1..], quoted[1..], gaps[1..], fold);
      GapEndsTerm(gaps[0], terms[1..], quoted[1..], gaps[1..], !quoted[0]);
      FirstTerm(terms[0], quoted[0], gaps[0] + others, fold);
      var shown := if quoted[0] then "\"" + terms[0] + "\"" else terms[0];
      assert Print(terms, quoted, gaps) == shown + (gaps[0] + others);
      assert [Lower(terms[0], fold)] + LowerAll(terms[1..], fold) == LowerAll(terms, fold);
    }
  }

  lemma GapEndsTerm(gap: string, terms: seq<string>, quoted: seq<bool>, gaps: seq<string>, needed: bool)
    requires AllBlank(gap) && |quoted| == |gaps| == |terms| && (needed && terms != [] ==> gap != "")
    ensures var rest := gap + Print(terms, quoted, gaps); needed ==> rest == "" || IsWhitespace(rest[0])
  {
  }

  /** Quotes around nothing give nothing, and a quote that is not closed takes the rest. */
  lemma QuoteCases(s: string, fold: Fold)
    ensures Tokens("\"\"" + s, fold) == Tokens(s, fold)
    ensures '"' !in s ==> Tokens("\"" + s, fold) == if s == "" then [] else [Lower(s, fold)]
  {
    hide Tokens, Lower, UpToQuote, UpToSpace;
    assert !IsWhitespace('"');
    TokensStep("\"\"" + s, fold);
    UpToQuoteStops("", s);
    assert ("\"\"" + s)[1..] == "" + "\"" + s;
    assert [] + Tokens(s, fold) == Tokens(s, fold);
    TokensStep("\"" + s, fold);
    assert ("\"" + s)[1..] == s;
    TokensOfNothing(fold);
    if '"' !in s {
      UpToQuoteEnds(s);
    }
  }

  // ----- matching

  predicate OccursAt(haystack: string, term: string, i: int) {
    0 <= i <= |haystack| - |term| && haystack[i..i + |term|] == term
  }

  /** A term occurs where it stands between two parts of the text, and nowhere else. */
  lemma OccursLaw(front: string, term: string, back: string, i: int)
    ensures OccursAt(front + term + back, term, |front|)
    ensures OccursAt(front, term, i) ==>
              0 <= i && i + |term| <= |front| && front == front[..i] + term + front[i + |term|..]
  {
    assert (front + term + back)[|front|..|front| + |term|] == term;
  }

  /** The least offset at which the term occurs. */
  function Find(haystack: string, term: string): (r: Option<nat>)
    ensures r.Some? ==> OccursAt(haystack, term, r.value) && forall i :: OccursAt(haystack, term, i) ==> r.value <= i
    ensures r.None? ==> forall i :: !OccursAt(haystack, term, i)
  {
    FindFrom(haystack, term, 0)
  }

  function FindFrom(haystack: string, term: string, at: nat): (r: Option<nat>)
    requires forall i :: 0 <= i < at ==> !OccursAt(haystack, term, i)
    ensures r.Some? ==> OccursAt(haystack, term, r.value) && forall i :: OccursAt(haystack, term, i) ==> r.value <= i
    ensures r.None? ==> forall i :: !OccursAt(haystack, term, i)
    decreases |haystack| - at
  {
    if OccursAt(haystack, term, at) then Some(at)
    else if at >= |haystack| then None
    else FindFrom(haystack, term, at + 1)
  }

  /** It is what the encoding takes. */
  lemma WidthIsEncodedWidth(c: char)
    ensures Width(c) == |EncodeChar(c as int)|
  {
  }

  /** Bytes of a character in UTF-8. */
  function Width(c: char): (n: nat)
    ensures 1 <= n <= 4
  {
    if c as int < 0x80 then 1 else if c as int < 0x800 then 2 else if c as int < 0x1_0000 then 3 else 4
  }

  /** The byte at which the character with index `i` begins. */
  function ByteOffset(s: string, i: int): nat
    requires 0 <= i <= |s|
    decreases i
  {
    if i == 0 then 0 else ByteOffset(s, i - 1) + Width(s[i - 1])
  }

  /** Literal mode: every term occurs somewhere in the folded text. */
  predicate Matches(terms: seq<string>, haystack: string, fold: Fold) {
    AllFound(terms, Lower(haystack, fold))
  }

  predicate AllFound(terms: seq<string>, lower: string) {
    terms == [] || (Find(lower, terms[0]).Some? && AllFound(terms[1..], lower))
  }

  /** The least byte offset of the first occurrences of the terms that occur, in the folded text. */
  function FindStart(terms: seq<string>, haystack: string, fold: Fold): Option<nat> {
    LeastFound(terms, Lower(haystack, fold))
  }

  function LeastFound(terms: seq<string>, lower: string): Option<nat> {
    if terms == [] then None
    else
      var rest := LeastFound(terms[1..], lower);
      match Find(lower, terms[0])
      case None => rest
      case Some(i) =>
        var here := ByteOffset(lower, i);
        if rest.Some? && rest.value < here then rest else Some(here)
  }

  /** A query matches exactly when each of its terms is a substring of the folded text. */
  lemma MatchLaw(terms: seq<string>, haystack: string, fold: Fold)
    ensures Matches(terms, haystack, fold)
       <==> forall t :: t in terms ==> exists i :: OccursAt(Lower(haystack, fold), t, i)
  {
    AllFoundLaw(terms, Lower(haystack, fold));
  }

  lemma {:induction false} AllFoundLaw(terms: seq<string>, lower: string)
    ensures AllFound(terms, lower) <==> forall t :: t in terms ==> exists i :: OccursAt(lower, t, i)
  {
    if terms != [] {
      AllFoundLaw(terms[1..], lower);
      assert terms == [terms[0]] + terms[1..] && terms[0] in terms;
      assert forall t :: t in terms[1..] ==> t in terms;
      if Find(lower, terms[0]).Some? {
        assert OccursAt(lower, terms[0], Find(lower, terms[0]).value);
      }
    }
  }

  /** `start` is the byte offset of an occurrence of a term, and of none that begins later than another. */
  ghost predicate Starts(start: nat, terms: seq<string>, lower: string) {
    && (exists t, i :: t in terms && OccursAt(lower, t, i) && start == ByteOffset(lower, i))
    && (forall t, i :: t in terms && OccursAt(lower, t, i) ==> start <= ByteOffset(lower, i))
  }

  /** The start is the byte offset of the earliest occurrence of any term; it is missing only when no term occurs. */
  lemma StartLaw(terms: seq<string>, haystack: string, fold: Fold)
    ensures var start, lower := FindStart(terms, haystack, fold), Lower(haystack, fold);
            && (start.Some? ==> Starts(start.value, terms, lower))
            && (start.None? <==> forall t, i :: t in terms ==> !OccursAt(lower, t, i))
    ensures Matches(terms, haystack, fold) && terms != [] ==> FindStart(terms, haystack, fold).Some?
  {
    LeastFoundLaw(terms, Lower(haystack, fold));
    MatchLaw(terms, haystack, fold);
    if terms != [] {
      assert terms[0] in terms;
    }
  }

  lemma {:induction false} LeastFoundLaw(terms: seq<string>, lower: string)
    ensures LeastFound(terms, lower).Some? ==> Starts(LeastFound(terms, lower).value, terms, lower)
    ensures LeastFound(terms, lower).None? ==> forall t, i :: t in terms ==> !OccursAt(lower, t, i)
  {
    if terms != [] {
      LeastFoundLaw(terms[1..], lower);
      assert terms == [terms[0]] + terms[1..];
      forall i | OccursAt(lower, terms[0], i)
        ensures ByteOffset(lower, Find(lower, terms[0]).value) <= ByteOffset(lower, i)
      {
        OffsetsGrow(lower, Find(lower, terms[0]).value, i);
      }
    }
  }

  lemma {:induction false} OffsetsGrow(s: string, i: nat, j: nat)
    requires i <= j <= |s|
    ensures ByteOffset(s, i) <= ByteOffset(s, j)
    decreases j
  {
    if i < j {
      OffsetsGrow(s, i, j - 1);
    }
  }

  // ----- offsets in the folded text and in the text itself

  /** The least index at which any of the terms occurs. */
  ghost predicate FirstMatch(i: nat, terms: seq<string>, lower: string) {
    && (exists t :: t in terms && OccursAt(lower, t, i))
    && (forall t, j :: t in terms && OccursAt(lower, t, j) ==> i <= j)
  }

  /** The bytes of a whole text. */
  function TotalWidth(s: string): nat {
    ByteOffset(s, |s|)
  }

  /**
   * The start is the byte offset of the first match in the text itself exactly when folding keeps the total width of
   * the text in front of that match.
   */
  lemma StartIsOffsetInText(terms: seq<string>, haystack: string, fold: Fold, i: nat)
    requires FirstMatch(i, terms, Lower(haystack, fold))
    ensures i <= |haystack|
    ensures FindStart(terms, haystack, fold) == Some(ByteOffset(haystack, i))
       <==> TotalWidth(Lower(haystack[..i], fold)) == TotalWidth(haystack[..i])
  {
    var lower := Lower(haystack, fold);
    StartIsFirstMatch(terms, haystack, fold, i);
    OffsetOfPrefix(haystack, i);
    OffsetOfPrefix(lower, i);
    assert lower[..i] == Lower(haystack[..i], fold);
  }

  /** In the folded text the start always is the byte offset of the first match. */
  lemma StartIsFirstMatch(terms: seq<string>, haystack: string, fold: Fold, i: nat)
    requires FirstMatch(i, terms, Lower(haystack, fold))
    ensures i <= |haystack| && FindStart(terms, haystack, fold) == Some(ByteOffset(Lower(haystack, fold), i))
  {
    hide FindStart, Lower;
    StartLaw(terms, haystack, fold);
    StartsAtFirstMatch(FindStart(terms, haystack, fold).value, terms, Lower(haystack, fold), i);
  }

  lemma StartsAtFirstMatch(start: nat, terms: seq<string>, lower: string, i: nat)
    requires Starts(start, terms, lower) && FirstMatch(i, terms, lower)
    ensures i <= |lower| && start == ByteOffset(lower, i)
  {
    hide ByteOffset;
    var u, j :| u in terms && OccursAt(lower, u, j) && start == ByteOffset(lower, j);
    OffsetsGrow(lower, i, j);
  }

  lemma {:induction false} OffsetOfPrefix(s: string, i: nat)
    requires i <= |s|
    ensures ByteOffset(s, i) == TotalWidth(s[..i])
  {
    SamePrefix(s, s[..i], i);
  }

  lemma {:induction false} SamePrefix(s: string, t: string, i: nat)
    requires i <= |s| && i <= |t| && s[..i] == t[..i]
    ensures ByteOffset(s, i) == ByteOffset(t, i)
  {
    if i > 0 {
      assert s[i - 1] == s[..i][i - 1] == t[i - 1];
      assert s[..i - 1] == s[..i][..i - 1] == t[..i - 1];
      SamePrefix(s, t, i - 1);
    }
  }

  ghost predicate SameOffsets(s: string, t: string) {
    |s| == |t| && forall i :: 0 <= i <= |s| ==> ByteOffset(s, i) == ByteOffset(t, i)
  }

  ghost predicate KeepsWidths(s: string, fold: Fold) {
    forall j :: 0 <= j < |s| ==> Width(fold(s[j])) == Width(s[j])
  }

  /**
   * All offsets agree exactly when folding keeps the width of every character; then the start is the byte offset of
   * the first match in the text, for every query.
   */
  lemma OffsetsAgree(haystack: string, fold: Fold)
    ensures SameOffsets(Lower(haystack, fold), haystack) <==> KeepsWidths(haystack, fold)
    ensures KeepsWidths(haystack, fold) ==>
              forall terms, i: nat :: FirstMatch(i, terms, Lower(haystack, fold)) ==>
                i <= |haystack| && FindStart(terms, haystack, fold) == Some(ByteOffset(haystack, i))
  {
    var lower := Lower(haystack, fold);
    if KeepsWidths(haystack, fold) {
      forall i | 0 <= i <= |haystack|
        ensures ByteOffset(lower, i) == ByteOffset(haystack, i)
      {
        SameWidths(lower, haystack, i);
      }
      forall terms, i: nat | FirstMatch(i, terms, lower)
        ensures i <= |haystack| && FindStart(terms, haystack, fold) == Some(ByteOffset(haystack, i))
      {
        StartIsFirstMatch(terms, haystack, fold, i);
      }
    }
    if SameOffsets(lower, haystack) {
      forall j | 0 <= j < |haystack|
        ensures Width(fold(haystack[j])) == Width(haystack[j])
      {
        assert ByteOffset(lower, j) == ByteOffset(haystack, j);
        assert ByteOffset(lower, j + 1) == ByteOffset(haystack, j + 1);
      }
    }
  }

  lemma {:induction false} SameWidths(s: string, t: string, i: nat)
    requires |s| == |t| && i <= |s| && forall j :: 0 <= j < |s| ==> Width(s[j]) == Width(t[j])
    ensures ByteOffset(s, i) == ByteOffset(t, i)
  {
    if i > 0 {
      SameWidths(s, t, i - 1);
    }
  }

  /** The Kelvin sign takes three bytes and folds to `k`, which takes one: the start is no offset in the text. */
  lemma StartAfterKelvinSign(fold: Fold)
    requires fold('\U{212A}') == 'k' && fold('a') == 'a'
    ensures FindStart(["a"], "\U{212A}a", fold) == Some(1) && ByteOffset("\U{212A}a", 1) == 3
  {
    var haystack := "\U{212A}a";
    var lower := Lower(haystack, fold);
    assert haystack[0] == '\U{212A}' && haystack[1] == 'a';
    assert lower[0] == 'k' && lower[1] == 'a' && lower[1..2] == "a" && lower[0..1] == "k";
    assert OccursAt(lower, "a", 1) && !OccursAt(lower, "a", 0);
    assert ["a"][1..] == [] && LeastFound([], lower) == None;
    assert ByteOffset(lower, 1) == ByteOffset(lower, 0) + 1 && ByteOffset(haystack, 1) == ByteOffset(haystack, 0) + 3;
  }
}
