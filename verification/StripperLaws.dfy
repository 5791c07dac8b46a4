/** The comment stripper is exact, conservative and idempotent. */
module StripperLaws {
  import opened Base
  import opened Stripper
  import Utf8

  // ---------------------------------------------------------------- runs of hashes

  lemma {:induction false} HashRunIs(s: string, i: nat, h: nat)
    requires (forall k | i <= k < i + h :: At(s, k, '#')) && !At(s, i + h, '#')
    ensures HashRun(s, i) == h
    decreases h
  {
    if h > 0 {
      assert At(s, i, '#');
      HashRunIs(s, i + 1, h - 1);
    }
  }

  lemma {:induction false} HashRunShift(s: string, k: nat, i: nat)
    requires k + i <= |s|
    ensures HashRun(s[k..], i) == HashRun(s, k + i)
    decreases |s| - i
  {
    if At(s, k + i, '#') {
      HashRunShift(s, k, i + 1);
    }
  }

  /** Two strings that agree up to and including the end of a run have the same run. */
  lemma SameRun(s: string, t: string, i: nat, h: nat)
    requires HashRun(s, i) == h && i + h < |s| && i + h < |t|
    requires forall k | i <= k <= i + h :: s[k] == t[k]
    ensures HashRun(t, i) == h
  {
    forall k | i <= k < i + h
      ensures At(t, k, '#')
    {
      assert At(s, k, '#');
    }
    HashRunIs(t, i, h);
  }

  // ---------------------------------------------------------------- literals survive

  /** An opening depends only on the bytes it consists of. */
  lemma SameOpening(s: string, t: string)
    requires s != [] && OpeningOf(s).Some? && t != []
    requires OpeningOf(s).value.len <= |t| && s[..OpeningOf(s).value.len] == t[..OpeningOf(s).value.len]
    ensures OpeningOf(t) == OpeningOf(s)
  {
    var n := OpeningOf(s).value.len;
    assert forall k | 0 <= k < n :: s[..n][k] == t[..n][k];
    if s[0] == 'r' && At(s, 1, '#') {
      SameRun(s, t, 1, HashRun(s, 1));
    } else if s[0] == 'b' && At(s, 1, 'r') && At(s, 2, '#') {
      SameRun(s, t, 2, HashRun(s, 2));
    }
  }

  /** A run of hashes holds no closing quote, so the literal closes after it. */
  lemma {:induction false} ClosesAfterRun(s: string, j: nat, raw: bool, hashes: nat)
    requires StringEnd(s, j, raw, hashes).Some?
    ensures j + HashRun(s, j) < StringEnd(s, j, raw, hashes).value
    decreases |s| - j
  {
    if At(s, j, '#') {
      ClosesAfterRun(s, j + 1, raw, hashes);
    }
  }

  /** A literal closes where it did if its bytes are kept and no hash has come to follow it. */
  lemma {:induction false} SameStringEnd(s: string, t: string, j: nat, raw: bool, hashes: nat)
    requires StringEnd(s, j, raw, hashes).Some?
    requires var e := StringEnd(s, j, raw, hashes).value; e <= |t| && s[..e] == t[..e] && !At(t, e, '#')
    ensures StringEnd(t, j, raw, hashes) == StringEnd(s, j, raw, hashes)
    decreases |s| - j
  {
    var e := StringEnd(s, j, raw, hashes).value;
    assert s[j] == s[..e][j] == t[..e][j] == t[j];
    if !raw && s[j] == '\\' {
      SameStringEnd(s, t, j + 2, raw, hashes);
    } else if s[j] == '"' && HashRun(s, j + 1) == hashes {
      forall k | j + 1 <= k < j + 1 + hashes
        ensures At(t, k, '#')
      {
        assert At(s, k, '#') && s[..e][k] == t[..e][k];
      }
      HashRunIs(t, j + 1, hashes);
    } else {
      if s[j] == '"' {
        ClosesAfterRun(s, j + 1, raw, hashes);
        assert forall k | 0 <= k < e :: s[..e][k] == t[..e][k];
        SameRun(s, t, j + 1, HashRun(s, j + 1));
      }
      SameStringEnd(s, t, j + 1, raw, hashes);
    }
  }

  lemma LiteralSurvives(s: string, t: string)
    requires s != [] && First(s).Some? && First(s).value.0 == Literal && t != []
    requires var n := First(s).value.1; n <= |t| && s[..n] == t[..n] && !At(t, n, '#')
    ensures First(t) == First(s)
  {
    var o, n := OpeningOf(s).value, First(s).value.1;
    assert s[..o.len] == s[..n][..o.len] && t[..o.len] == t[..n][..o.len];
    SameOpening(s, t);
    SameStringEnd(s, t, o.len, o.raw, o.hashes);
  }

  // ---------------------------------------------------------------- comments are what they claim

  lemma {:induction false} SameBodyEnd(s: string, t: string, j: nat)
    requires BodyEnd(s, j).Some?
    requires var e := BodyEnd(s, j).value; e <= |t| && s[..e] == t[..e]
    ensures BodyEnd(t, j) == BodyEnd(s, j)
    decreases |s| - j
  {
    var e := BodyEnd(s, j).value;
    assert forall k | 0 <= k < e :: s[..e][k] == t[..e][k];
    if Opens(s, j) {
      var inner := BodyEnd(s, j + 2).value;
      assert s[..inner] == s[..e][..inner] && t[..inner] == t[..e][..inner];
      SameBodyEnd(s, t, j + 2);
      SameBodyEnd(s, t, inner);
    } else if !Closes(s, j) {
      SameBodyEnd(s, t, j + 1);
    }
  }

  // ---------------------------------------------------------------- exactness

  /** A piece is what it claims to be: one byte of code, a literal that opens and closes as one, or a comment
      that opens, nests and closes as one. */
  predicate Genuine(p: Piece) {
    p.text != [] &&
    match p.kind
    case Code => |p.text| == 1
    case Literal => First(p.text) == Some((Literal, |p.text|))
    case Comment => Opens(p.text, 0) && BodyEnd(p.text, 2) == Some(|p.text|)
  }

  lemma FirstIsGenuine(s: string)
    requires s != [] && First(s).Some?
    ensures Genuine(Piece(First(s).value.0, s[..First(s).value.1]))
  {
    var (kind, n) := First(s).value;
    var t := s[..n];
    if kind == Literal {
      LiteralSurvives(s, t);
    } else if kind == Comment {
      CountingIsNesting(s, 2, 1);
      SameBodyEnd(s, t, 2);
      assert At(t, 0, '/') && At(t, 1, '*');
    }
  }

  /** The pieces of a line are genuine and put together again they are the line. */
  lemma {:induction false} PiecesAreExact(s: string)
    requires Pieces(s).Some?
    ensures Text(Pieces(s).value) == s
    ensures forall i | 0 <= i < |Pieces(s).value| :: Genuine(Pieces(s).value[i])
    decreases |s|
  {
    if s != [] {
      var n := First(s).value.1;
      var rest := Pieces(s[n..]).value;
      FirstIsGenuine(s);
      PiecesAreExact(s[n..]);
      assert Pieces(s).value[1..] == rest;
      assert s == s[..n] + s[n..];
    }
  }

  // ---------------------------------------------------------------- idempotence

  /** What cleaning leaves at the front is the same byte, or the space of a comment. */
  lemma FrontIsKept(s: string)
    requires s != [] && Cleaned(s).Some?
    ensures Cleaned(s).value != []
    ensures Cleaned(s).value[0] == s[0] || Cleaned(s).value[0] == ' '
  {
    CleanedStep(s);
  }

  lemma CodeStep(s: string)
    requires s != [] && First(s) == Some((Code, 1)) && Cleaned(s).Some?
    ensures Cleaned(s[1..]).Some? && Cleaned(s).value == [s[0]] + Cleaned(s[1..]).value
  {
    CleanedStep(s);
    assert s[..1] == [s[0]];
  }

  /** A run of hashes in front is kept, and no quote comes to follow it. */
  lemma {:induction false} RunIsKept(s: string)
    requires Cleaned(s).Some?
    ensures HashRun(Cleaned(s).value, 0) == HashRun(s, 0)
    ensures At(Cleaned(s).value, HashRun(s, 0), '"') ==> At(s, HashRun(s, 0), '"')
    decreases |s|
  {
    if At(s, 0, '#') {
      CodeStep(s);
      RunIsKept(s[1..]);
      var o := Cleaned(s).value;
      assert o[1..] == Cleaned(s[1..]).value;
      HashRunShift(s, 1, 0);
      HashRunShift(o, 1, 0);
    } else if s != [] {
      FrontIsKept(s);
    }
  }

  /** A raw opening that was not one before cleaning is not one after. */
  lemma NoNewRawOpening(s: string, t: string, from: nat)
    requires from <= |s| && from <= |t| && RawOpening(s, from).None?
    requires Cleaned(s[from..]) == Some(t[from..])
    ensures RawOpening(t, from).None?
  {
    RunIsKept(s[from..]);
    HashRunShift(s, from, 0);
    HashRunShift(t, from, 0);
  }

  /** Code stays code: cleaning what follows makes no literal or comment start at it. */
  lemma CodeSurvives(s: string)
    requires s != [] && First(s) == Some((Code, 1)) && Cleaned(s).Some?
    ensures First(Cleaned(s).value) == Some((Code, 1))
  {
    CodeStep(s);
    var t, rest := Cleaned(s).value, s[1..];
    assert t[1..] == Cleaned(rest).value;
    if rest != [] {
      FrontIsKept(rest);
      if s[0] == 'r' && t[1] == '#' {
        NoNewRawOpening(s, t, 1);
      } else if s[0] == 'b' && At(t, 1, 'r') && At(t, 2, '#') {
        ByteRawStaysCode(s, t);
      }
    } else {
      assert Cleaned(rest) == Some([]);
    }
  }

  /** No hash comes to follow an `r`. */
  lemma NoNewHash(s: string, t: string)
    requires s != [] && s[0] == 'r' && !At(s, 1, '#') && Cleaned(s) == Some(t)
    ensures !At(t, 1, '#')
  {
    CleanedStep(s);
    if First(s).value.0 == Code {
      CodeStep(s);
      if s[1..] != [] {
        FrontIsKept(s[1..]);
      } else {
        assert Cleaned(s[1..]) == Some([]);
      }
    }
  }

  lemma ByteRawStaysCode(s: string, t: string)
    requires |s| > 1 && s[0] == 'b' && s[1] == 'r' && First(s) == Some((Code, 1)) && Cleaned(s) == Some(t)
    requires Cleaned(s[1..]) == Some(t[1..]) && At(t, 1, 'r') && At(t, 2, '#')
    ensures RawOpening(t, 2).None?
  {
    var r := s[1..];
    assert At(s, 2, '#') by {
      if !At(r, 1, '#') {
        NoNewHash(r, t[1..]);
      }
    }
    HashRunShift(s, 1, 1);
    assert RawOpening(s, 2).None? && RawOpening(r, 1).None?;
    assert First(r) == Some((Code, 1));
    CodeStep(r);
    assert r[1..] == s[2..] && t[1..][1..] == t[2..];
    NoNewRawOpening(s, t, 2);
  }

  /** Cleaning a cleaned text changes nothing, and it has no comment left. */
  lemma {:induction false} CleanedStaysClean(s: string)
    requires Cleaned(s).Some?
    ensures Cleaned(Cleaned(s).value) == Cleaned(s)
    ensures Pieces(Cleaned(s).value).Some?
    ensures forall p | p in Pieces(Cleaned(s).value).value :: p.kind != Comment
    decreases |s|
  {
    if s != [] {
      CleanedStep(s);
      var (kind, n) := First(s).value;
      var t, o := Cleaned(s).value, Cleaned(s[n..]).value;
      CleanedStaysClean(s[n..]);
      if kind == Literal {
        LiteralThenRest(s, t, n);
      } else if kind == Code {
        CodeSurvives(s);
      }
      var m := if kind == Comment then 1 else n;
      assert First(t) == Some((if kind == Literal then Literal else Code, m));
      assert t[m..] == o;
      CleanedStep(t);
    }
  }

  lemma LiteralThenRest(s: string, t: string, n: nat)
    requires s != [] && First(s) == Some((Literal, n)) && Cleaned(s[n..]).Some? && t == s[..n] + Cleaned(s[n..]).value
    ensures First(t) == Some((Literal, n))
  {
    assert t[..n] == s[..n];
    var o := OpeningOf(s).value;
    LiteralEndsBeforeHash(s, o.len, o.raw, o.hashes);
    if s[n..] != [] {
      FrontIsKept(s[n..]);
    }
    LiteralSurvives(s, t);
  }

  lemma {:induction false} LiteralEndsBeforeHash(s: string, j: nat, raw: bool, hashes: nat)
    requires StringEnd(s, j, raw, hashes).Some?
    ensures !At(s, StringEnd(s, j, raw, hashes).value, '#')
    decreases |s| - j
  {
    if !raw && s[j] == '\\' {
      LiteralEndsBeforeHash(s, j + 2, raw, hashes);
    } else if !(s[j] == '"' && HashRun(s, j + 1) == hashes) {
      LiteralEndsBeforeHash(s, j + 1, raw, hashes);
    }
  }

  // ---------------------------------------------------------------- text stays text

  lemma CommentIsBracketed(s: string, n: nat)
    requires s != [] && First(s) == Some((Comment, n))
    ensures n >= 2 && s[0] == '/' && s[n - 1] == '/'
  {
    CommentEndsInSlash(s, 2, 1);
  }

  lemma {:induction false} CommentEndsInSlash(s: string, j: nat, depth: nat)
    requires CommentEnd(s, j, depth).Some?
    ensures s[CommentEnd(s, j, depth).value - 1] == '/'
    decreases |s| - j
  {
    if Opens(s, j) {
      CommentEndsInSlash(s, j + 2, depth + 1);
    } else if Closes(s, j) {
      if depth > 1 {
        CommentEndsInSlash(s, j + 2, depth - 1);
      }
    } else {
      CommentEndsInSlash(s, j + 1, depth);
    }
  }

  /** A comment begins and ends with an ASCII byte, so taking it out of a text leaves a text on either side. */
  lemma CommentComesOut(a: string, comment: string, rest: string)
    requires Utf8.Valid(a + comment + rest)
    requires |comment| >= 2 && comment[0] == '/' && comment[|comment| - 1] == '/'
    ensures Utf8.Valid(a + " " + rest)
  {
    var front := comment[..|comment| - 1];
    assert a + comment + rest == a + (comment + rest) && (comment + rest)[0] == '/';
    Utf8.CutBeforeAscii(a, comment + rest);
    assert comment + rest == front + ['/'] + rest;
    Utf8.CutAfterAscii(front, '/', rest);
    Utf8.AsciiIsValid(' ');
    Utf8.ConcatIsValid(a, " ");
    Utf8.ConcatIsValid(a + " ", rest);
  }

  /** One piece of a text rendered leaves a text. */
  lemma RenderedIsText(a: string, s: string)
    requires s != [] && Utf8.Valid(a + s) && First(s).Some?
    ensures var (kind, n) := First(s).value; Utf8.Valid(a + Rendered(kind, s[..n]) + s[n..])
  {
    var (kind, n) := First(s).value;
    assert a + s == a + s[..n] + s[n..];
    if kind == Comment {
      CommentIsBracketed(s, n);
      CommentComesOut(a, s[..n], s[n..]);
    }
  }

  lemma CleanedParts(a: string, s: string)
    requires s != [] && Cleaned(s).Some?
    ensures First(s).Some? && Cleaned(s[First(s).value.1..]).Some?
    ensures var (kind, n) := First(s).value;
            a + Cleaned(s).value == a + Rendered(kind, s[..n]) + Cleaned(s[n..]).value
  {
    CleanedStep(s);
  }

  /** Cleaning the rest of a text, behind any front `a`, leaves a text. */
  lemma {:induction false} CleanedIsText(a: string, s: string)
    requires Utf8.Valid(a + s) && Cleaned(s).Some?
    ensures Utf8.Valid(a + Cleaned(s).value)
    decreases |s|
  {
    if s == [] {
      assert Cleaned(s) == Some([]);
    } else {
      CleanedParts(a, s);
      RenderedIsText(a, s);
      var (kind, n) := First(s).value;
      CleanedIsText(a + Rendered(kind, s[..n]), s[n..]);
    }
  }

  /** The check at the end never fails: of every line of text, stripping gives what the scan left. */
  lemma StripIsCleaned(line: string)
    requires Utf8.Valid(line)
    ensures Strip(line) == match Cleaned(line) case None => line case Some(out) => out
    ensures Utf8.Valid(Strip(line))
  {
    if Cleaned(line).Some? {
      assert [] + line == line && [] + Cleaned(line).value == Cleaned(line).value;
      CleanedIsText([], line);
    }
  }

  // ---------------------------------------------------------------- the stripper

  /** Stripping twice is stripping once. */
  lemma StripIsIdempotent(line: string)
    ensures Strip(Strip(line)) == Strip(line)
  {
    if Cleaned(line).Some? {
      CleanedStaysClean(line);
    }
  }

  /** Of every line of text whose literals and comments close, exactly the comments are replaced, each by one
      space, and every other byte is kept; any other line comes back as it is. */
  lemma {:induction false} StripIsExact(line: string)
    requires Utf8.Valid(line)
    ensures Pieces(line).None? ==> Strip(line) == line
    ensures Pieces(line).Some? ==>
              var ps := Pieces(line).value;
              && Text(ps) == line && Strip(line) == Output(ps)
              && forall i | 0 <= i < |ps| :: Genuine(ps[i])
  {
    StripIsCleaned(line);
    if Pieces(line).Some? {
      PiecesAreExact(line);
    }
  }
}
