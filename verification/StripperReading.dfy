/** A reading of a line as code, literals and comments that says nothing of scanning, and that the stripper's
    scan finds exactly. */
module StripperReading {
  import opened Base
  import opened Stripper
  import opened StripperLaws
  import Utf8

  // ---------------------------------------------------------------- how literals open and close

  predicate Hashes(s: string, k: nat, h: nat) {
    forall i | k <= i < k + h :: At(s, i, '#')
  }

  /** From `k` on stand `h` hashes and no more. */
  predicate ExactlyHashes(s: string, k: nat, h: nat) {
    Hashes(s, k, h) && !At(s, k + h, '#')
  }

  /** A plain literal opens, with its quote at `q`: with or without a `b` in front. */
  predicate PlainOpens(s: string, q: nat) {
    At(s, q, '"') && (q == 0 || (q == 1 && s[0] == 'b'))
  }

  /** A raw literal opens, with `h` hashes in front of its quote at `q`: after `r`, or after `br` and at least
      one hash. */
  predicate RawOpens(s: string, q: nat, h: nat) {
    && At(s, q, '"') && h < q && Hashes(s, q - h, h)
    && ((q == 1 + h && s[0] == 'r') || (q == 2 + h && s[0] == 'b' && s[1] == 'r' && h > 0))
  }

  ghost predicate LiteralOpens(s: string) {
    (exists q: nat :: PlainOpens(s, q)) || exists q: nat, h: nat :: RawOpens(s, q, h)
  }

  /** From `j` to `end` stand bytes and backslash pairs, and every bare quote is followed by a hash. */
  predicate PlainBody(s: string, j: nat, end: nat)
    requires end <= |s|
    decreases end - j
  {
    if j >= end then j == end
    else if s[j] == '\\' then PlainBody(s, j + 2, end)
    else (s[j] == '"' ==> At(s, j + 1, '#')) && PlainBody(s, j + 1, end)
  }

  /** From `j` to `end` no quote is followed by exactly `h` hashes. */
  predicate RawBody(s: string, j: nat, end: nat, h: nat)
    requires end <= |s|
  {
    forall k | j <= k < end && s[k] == '"' :: !ExactlyHashes(s, k + 1, h)
  }

  predicate IsPlain(t: string, q: nat) {
    PlainOpens(t, q) && q + 1 < |t| && t[|t| - 1] == '"' && PlainBody(t, q + 1, |t| - 1)
  }

  predicate IsRaw(t: string, q: nat, h: nat) {
    && RawOpens(t, q, h) && q + 1 + h < |t| && t[|t| - 1 - h] == '"' && Hashes(t, |t| - h, h)
    && RawBody(t, q + 1, |t| - 1 - h, h)
  }

  ghost predicate IsLiteral(t: string) {
    (exists q: nat :: IsPlain(t, q)) || exists q: nat, h: nat :: IsRaw(t, q, h)
  }

  // ---------------------------------------------------------------- how comments nest

  /** From `j` to `e` stand bytes and whole comments, and then a close. */
  ghost predicate CommentBody(s: string, j: nat, e: nat)
    decreases |s| - j
  {
    && j < e <= |s|
    && if Opens(s, j) then exists m | j + 2 < m < e :: CommentBody(s, j + 2, m) && CommentBody(s, m, e)
       else if Closes(s, j) then e == j + 2
       else CommentBody(s, j + 1, e)
  }

  ghost predicate IsComment(t: string) {
    Opens(t, 0) && CommentBody(t, 2, |t|)
  }

  // ---------------------------------------------------------------- a reading

  /** A piece read in front of what follows it: a literal has no hash behind it, and code is a byte at which
      neither a literal nor a comment opens. */
  ghost predicate ReadsAs(p: Piece, s: string) {
    && p.text != [] && p.text <= s
    && match p.kind
       case Code => |p.text| == 1 && !LiteralOpens(s) && !Opens(s, 0)
       case Literal => IsLiteral(p.text) && !At(s, |p.text|, '#')
       case Comment => IsComment(p.text)
  }

  ghost predicate IsReading(s: string, ps: seq<Piece>) {
    if ps == [] then s == []
    else ReadsAs(ps[0], s) && IsReading(s[|ps[0].text|..], ps[1..])
  }

  // ---------------------------------------------------------------- openings

  lemma RunIsExact(s: string, k: nat, h: nat)
    ensures HashRun(s, k) == h <==> ExactlyHashes(s, k, h)
  {
    if ExactlyHashes(s, k, h) {
      HashRunIs(s, k, h);
    }
  }

  /** The scan's raw opening is the raw opening there is. */
  lemma RawOpeningIs(s: string, from: nat, h: nat)
    requires 0 < from <= 2 && from <= |s|
    requires (from == 1 && s[0] == 'r') || (from == 2 && s[0] == 'b' && s[1] == 'r' && At(s, 2, '#'))
    ensures RawOpening(s, from) == Some(Opening(from + h + 1, h, true)) <==> RawOpens(s, from + h, h)
    ensures RawOpening(s, from).Some? ==>
              var run := HashRun(s, from);
              RawOpening(s, from) == Some(Opening(from + run + 1, run, true))
  {
    RunIsExact(s, from, h);
  }

  lemma OpeningIs(s: string)
    requires s != []
    ensures OpeningOf(s).Some? ==>
              var o := OpeningOf(s).value;
              o.len > 0 && if o.raw then RawOpens(s, o.len - 1, o.hashes) else o.hashes == 0 && PlainOpens(s, o.len - 1)
  {
    if s[0] == 'r' && At(s, 1, '#') {
      RawOpeningIs(s, 1, HashRun(s, 1));
    } else if s[0] == 'b' && At(s, 1, 'r') && At(s, 2, '#') {
      RawOpeningIs(s, 2, HashRun(s, 2));
    }
  }

  lemma PlainOpeningIs(s: string, q: nat)
    requires PlainOpens(s, q)
    ensures OpeningOf(s) == Some(Opening(q + 1, 0, false))
  {
  }

  lemma RawOpeningIsFound(s: string, q: nat, h: nat)
    requires RawOpens(s, q, h)
    ensures OpeningOf(s) == Some(Opening(q + 1, h, true))
  {
    assert h > 0 ==> At(s, q - h, '#');
    RawOpeningIs(s, q - h, h);
  }

  lemma OpensIffFound(s: string)
    requires s != []
    ensures LiteralOpens(s) <==> OpeningOf(s).Some?
  {
    OpeningIs(s);
    if q: nat :| PlainOpens(s, q) {
      PlainOpeningIs(s, q);
    } else if q: nat, h: nat :| RawOpens(s, q, h) {
      RawOpeningIsFound(s, q, h);
    }
  }

  // ---------------------------------------------------------------- closings

  lemma {:induction false} PlainEnd(t: string, j: nat)
    requires t != []
    ensures StringEnd(t, j, false, 0) == Some(|t|) <==> t[|t| - 1] == '"' && PlainBody(t, j, |t| - 1)
    decreases |t| - j
  {
    if j < |t| {
      if t[j] == '\\' {
        PlainEnd(t, j + 2);
      } else {
        RunIsExact(t, j + 1, 0);
        PlainEnd(t, j + 1);
      }
    }
  }

  predicate RawRest(t: string, j: nat, h: nat) {
    j + h < |t| && t[|t| - 1 - h] == '"' && Hashes(t, |t| - h, h) && RawBody(t, j, |t| - 1 - h, h)
  }

  lemma {:induction false} RawEnd(t: string, j: nat, h: nat)
    ensures StringEnd(t, j, true, h) == Some(|t|) <==> RawRest(t, j, h)
    decreases |t| - j
  {
    if j < |t| {
      RawEnd(t, j + 1, h);
      RunIsExact(t, j + 1, h);
    }
  }

  // ---------------------------------------------------------------- what the scan finds first

  /** A whole text is scanned as one literal exactly when it reads as one. */
  lemma LiteralIffRead(t: string)
    requires t != []
    ensures First(t) == Some((Literal, |t|)) <==> IsLiteral(t)
  {
    if First(t) == Some((Literal, |t|)) {
      ScannedIsRead(t);
    }
    if q: nat :| IsPlain(t, q) {
      PlainOpeningIs(t, q);
      PlainEnd(t, q + 1);
    } else if q: nat, h: nat :| IsRaw(t, q, h) {
      RawOpeningIsFound(t, q, h);
      RawEnd(t, q + 1, h);
    }
  }

  lemma ScannedIsRead(t: string)
    requires t != [] && First(t) == Some((Literal, |t|))
    ensures IsLiteral(t)
  {
    var o := OpeningOf(t).value;
    OpeningIs(t);
    if o.raw {
      RawEnd(t, o.len, o.hashes);
      assert IsRaw(t, o.len - 1, o.hashes);
    } else {
      PlainEnd(t, o.len);
      assert IsPlain(t, o.len - 1);
    }
  }

  /** In front of a line, too, with no hash behind it. */
  lemma LiteralInFront(s: string, n: nat)
    requires s != [] && 0 < n <= |s|
    ensures First(s) == Some((Literal, n)) <==> IsLiteral(s[..n]) && !At(s, n, '#')
  {
    var t := s[..n];
    LiteralIffRead(t);
    if First(s) == Some((Literal, n)) {
      FirstIsGenuine(s);
      var o := OpeningOf(s).value;
      LiteralEndsBeforeHash(s, o.len, o.raw, o.hashes);
    } else if IsLiteral(t) && !At(s, n, '#') {
      assert t[..n] == s[..n];
      LiteralSurvives(t, s);
    }
  }

  lemma {:induction false} BodyIffRead(s: string, j: nat, e: nat)
    ensures BodyEnd(s, j) == Some(e) <==> CommentBody(s, j, e)
    decreases |s| - j
  {
    if j < |s| {
      if Opens(s, j) {
        if BodyEnd(s, j) == Some(e) {
          var m := BodyEnd(s, j + 2).value;
          BodyIffRead(s, j + 2, m);
          BodyIffRead(s, m, e);
        } else if j < e <= |s| {
          forall m | j + 2 < m < e
            ensures !(CommentBody(s, j + 2, m) && CommentBody(s, m, e))
          {
            BodyIffRead(s, j + 2, m);
            BodyIffRead(s, m, e);
          }
        }
      } else if !Closes(s, j) {
        BodyIffRead(s, j + 1, e);
      }
    }
  }

  lemma CommentInFront(s: string, n: nat)
    requires s != [] && 0 < n <= |s|
    ensures First(s) == Some((Comment, n)) <==> IsComment(s[..n])
  {
    var t := s[..n];
    BodyIffRead(t, 2, n);
    CountingIsNesting(s, 2, 1);
    if First(s) == Some((Comment, n)) {
      FirstIsGenuine(s);
    } else if IsComment(t) {
      assert t[..n] == s[..n] && At(s, 0, '/') && At(s, 1, '*');
      SameBodyEnd(t, s, 2);
    }
  }

  lemma CodeInFront(s: string)
    requires s != []
    ensures First(s) == Some((Code, 1)) <==> !LiteralOpens(s) && !Opens(s, 0)
  {
    OpensIffFound(s);
  }

  lemma FirstIffRead(s: string, p: Piece)
    requires s != [] && 0 < |p.text| <= |s| && s[..|p.text|] == p.text
    ensures First(s) == Some((p.kind, |p.text|)) <==> ReadsAs(p, s)
  {
    var n := |p.text|;
    match p.kind {
      case Code =>
        CodeInFront(s);
      case Literal =>
        LiteralInFront(s, n);
      case Comment =>
        CommentInFront(s, n);
    }
  }

  // ---------------------------------------------------------------- the reading

  /** The scan finds a reading exactly when there is one, and there is at most one. */
  lemma {:induction false} PiecesAreTheReading(s: string, ps: seq<Piece>)
    ensures Pieces(s) == Some(ps) <==> IsReading(s, ps)
    decreases |s|
  {
    if s != [] && ps != [] {
      var p := ps[0];
      if 0 < |p.text| <= |s| && s[..|p.text|] == p.text {
        FirstIffRead(s, p);
        PiecesAreTheReading(s[|p.text|..], ps[1..]);
        assert ps == [p] + ps[1..];
      }
    }
  }

  lemma {:induction false} OutputConcat(a: seq<Piece>, b: seq<Piece>)
    ensures Output(a + b) == Output(a) + Output(b)
  {
    if a == [] {
      assert a + b == b;
    } else {
      OutputConcat(a[1..], b);
      OutputCons(a[0], a[1..] + b);
      OutputCons(a[0], a[1..]);
      assert a + b == [a[0]] + (a[1..] + b) && a == [a[0]] + a[1..];
      Reassociate(Rendered(a[0].kind, a[0].text), Output(a[1..]), Output(b));
    }
  }

  lemma OutputCons(p: Piece, rest: seq<Piece>)
    ensures Output([p] + rest) == Rendered(p.kind, p.text) + Output(rest)
  {
    assert ([p] + rest)[1..] == rest;
  }

  lemma Reassociate(a: string, b: string, c: string)
    ensures a + (b + c) == a + b + c
  {
  }

  lemma OutputAt(ps: seq<Piece>, i: nat)
    requires i < |ps|
    ensures Output(ps) == Output(ps[..i]) + Rendered(ps[i].kind, ps[i].text) + Output(ps[i + 1..])
  {
    var front, back := ps[..i], ps[i..];
    assert ps == front + back;
    OutputConcat(front, back);
    assert back[0] == ps[i] && back[1..] == ps[i + 1..];
  }

  /** Of a line of text that reads, every piece comes out where its neighbours leave it: a comment as one
      space, literals and code as they are. */
  lemma StripFollowsReading(line: string, ps: seq<Piece>, i: nat)
    requires Utf8.Valid(line) && IsReading(line, ps) && i < |ps|
    ensures Strip(line) == Output(ps[..i]) + (if ps[i].kind.Comment? then " " else ps[i].text) + Output(ps[i + 1..])
  {
    PiecesAreTheReading(line, ps);
    StripIsCleaned(line);
    OutputAt(ps, i);
  }

  /** A line that does not read comes back as it is. */
  lemma StripsOnlyWhatReads(line: string)
    requires forall ps: seq<Piece> :: !IsReading(line, ps)
    ensures Strip(line) == line
  {
    if Pieces(line).Some? {
      PiecesAreTheReading(line, Pieces(line).value);
    }
  }

  // ---------------------------------------------------------------- where a plain literal closes

  /** From `j` to `end` stand bytes other than quotes, and backslash pairs. */
  predicate NoBareQuote(s: string, j: nat, end: nat)
    requires end <= |s|
    decreases end - j
  {
    if j >= end then j == end
    else if s[j] == '\\' then NoBareQuote(s, j + 2, end)
    else s[j] != '"' && NoBareQuote(s, j + 1, end)
  }

  lemma {:induction false} FirstQuoteCloses(s: string, j: nat, k: nat)
    requires k < |s| && s[k] == '"' && NoBareQuote(s, j, k)
    ensures StringEnd(s, j, false, 0) == Some(k + 1) <==> !At(s, k + 1, '#')
    decreases k - j
  {
    if j < k {
      FirstQuoteCloses(s, if s[j] == '\\' then j + 2 else j + 1, k);
    } else {
      RunIsExact(s, k + 1, 0);
    }
  }

  /** A plain literal closes at its first bare quote if and only if no hash stands behind that quote. */
  lemma PlainClosesAtQuoteIffNoHash(s: string, q: nat, k: nat)
    requires PlainOpens(s, q) && k < |s| && s[k] == '"' && NoBareQuote(s, q + 1, k)
    ensures First(s) == Some((Literal, k + 1)) <==> !At(s, k + 1, '#')
  {
    PlainOpeningIs(s, q);
    FirstQuoteCloses(s, q + 1, k);
  }

  lemma {:induction false} AsciiTextIsValid(s: string)
    requires forall k | 0 <= k < |s| :: s[k] < 128 as char
    ensures Utf8.Valid(s)
  {
    if s != [] {
      AsciiTextIsValid(s[1..]);
      Utf8.AsciiIsValid(s[0]);
      Utf8.ConcatIsValid([s[0]], s[1..]);
      assert [s[0]] + s[1..] == s;
    }
  }

  /** Three pieces put together read as the line they make. */
  lemma ThreePieces(line: string, a: Piece, b: Piece, c: Piece)
    requires Utf8.Valid(line) && line == a.text + b.text + c.text
    requires ReadsAs(a, line) && ReadsAs(b, b.text + c.text) && ReadsAs(c, c.text)
    requires a.kind == Literal && b.kind == Comment && c.kind == Literal
    ensures Strip(line) == a.text + " " + c.text
  {
    var ps := [a, b, c];
    assert c.text[|c.text|..] == [] && ps[2..][1..] == [] && IsReading(c.text, ps[2..]);
    assert (b.text + c.text)[|b.text|..] == c.text && ps[1..][1..] == ps[2..] && IsReading(b.text + c.text, ps[1..]);
    assert line[|a.text|..] == b.text + c.text && IsReading(line, ps);
    StripFollowsReading(line, ps, 1);
    OutputCons(a, []);
    OutputCons(c, []);
    assert ps[..1] == [a] + [] && ps[2..] == [c] + [];
    assert a.text + [] == a.text && c.text + [] == c.text;
  }

  lemma PlainReads(text: string, rest: string)
    requires IsPlain(text, 0) && !At(rest, 0, '#')
    ensures ReadsAs(Piece(Literal, text), text + rest)
  {
    assert IsLiteral(text);
    assert rest != [] ==> (text + rest)[|text|] == rest[0];
  }

  /** Two literals with a hash behind the first: the text of the second is taken for a comment. */
  lemma HashBehindLiteralLosesText()
    ensures Strip("\"a\"#\"" + "/**/" + "\"\"#\"") == "\"a\"#\"" + " " + "\"\"#\""
  {
    var first, comment, last := "\"a\"#\"", "/**/", "\"\"#\"";
    assert PlainBody(first, 1, 4) && IsPlain(first, 0);
    PlainReads(first, comment + last);
    assert first + (comment + last) == first + comment + last;
    assert CommentBody(comment, 2, 4) && IsComment(comment);
    assert ReadsAs(Piece(Comment, comment), comment + last);
    assert PlainBody(last, 1, 3) && IsPlain(last, 0);
    PlainReads(last, "");
    assert last + "" == last;
    AsciiTextIsValid(first + comment + last);
    ThreePieces(first + comment + last, Piece(Literal, first), Piece(Comment, comment), Piece(Literal, last));
  }
}
