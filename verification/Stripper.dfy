/** The string-aware stripper of inline block comments (evorule-tcb/build.rs). A line is the sequence of its
    bytes, each written as the character with its code. */
module Stripper {
  import opened Base
  import Utf8

  predicate At(s: string, i: nat, c: char) {
    i < |s| && s[i] == c
  }

  // ---------------------------------------------------------------- string literals

  /** The number of consecutive hashes from `i` on. */
  function HashRun(s: string, i: nat): (h: nat)
    ensures i <= |s| ==> i + h <= |s|
    ensures forall k | i <= k < i + h :: At(s, k, '#')
    ensures !At(s, i + h, '#')
    decreases |s| - i
  {
    if At(s, i, '#') then 1 + HashRun(s, i + 1) else 0
  }

  /** How a string literal opens: the bytes up to and including the quote, and the hashes to match. */
  datatype Opening = Opening(len: nat, hashes: nat, raw: bool)

  function OpeningOf(s: string): (o: Option<Opening>)
    requires s != []
    ensures o.Some? ==> 1 <= o.value.len <= |s| && s[o.value.len - 1] == '"'
  {
    if s[0] == '"' then Some(Opening(1, 0, false))
    else if s[0] == 'b' && At(s, 1, '"') then Some(Opening(2, 0, false))
    else if s[0] == 'r' && At(s, 1, '"') then Some(Opening(2, 0, true))
    else if s[0] == 'r' && At(s, 1, '#') then RawOpening(s, 1)
    else if s[0] == 'b' && At(s, 1, 'r') && At(s, 2, '#') then RawOpening(s, 2)
    else None
  }

  function RawOpening(s: string, from: nat): (o: Option<Opening>)
    requires from <= |s|
    ensures o.Some? ==> from < o.value.len <= |s| && s[o.value.len - 1] == '"'
  {
    var h := HashRun(s, from);
    if At(s, from + h, '"') then Some(Opening(from + h + 1, h, true)) else None
  }

  /** Where a literal closes, scanning from `j`: just after a quote followed by exactly as many hashes as
      opened it. A backslash skips a byte unless the literal is raw. */
  function StringEnd(s: string, j: nat, raw: bool, hashes: nat): (e: Option<nat>)
    ensures e.Some? ==> j < e.value <= |s|
    decreases |s| - j
  {
    if j >= |s| then None
    else if !raw && s[j] == '\\' then StringEnd(s, j + 2, raw, hashes)
    else if s[j] == '"' && HashRun(s, j + 1) == hashes then Some(j + 1 + hashes)
    else StringEnd(s, j + 1, raw, hashes)
  }

  // ---------------------------------------------------------------- comments

  predicate Opens(s: string, j: nat) {
    At(s, j, '/') && At(s, j + 1, '*')
  }

  predicate Closes(s: string, j: nat) {
    At(s, j, '*') && At(s, j + 1, '/')
  }

  /** Where a comment ends, counting depth from `j` on. */
  function CommentEnd(s: string, j: nat, depth: nat): (e: Option<nat>)
    ensures e.Some? ==> j < e.value <= |s|
    decreases |s| - j
  {
    if j >= |s| || depth == 0 then None
    else if Opens(s, j) then CommentEnd(s, j + 2, depth + 1)
    else if Closes(s, j) then if depth == 1 then Some(j + 2) else CommentEnd(s, j + 2, depth - 1)
    else CommentEnd(s, j + 1, depth)
  }

  /** The same by recursive descent: a body is made of bytes and whole nested comments. */
  function BodyEnd(s: string, j: nat): (e: Option<nat>)
    ensures e.Some? ==> j < e.value <= |s|
    decreases |s| - j
  {
    if j >= |s| then None
    else if Opens(s, j) then
      match BodyEnd(s, j + 2)
      case None => None
      case Some(inner) => BodyEnd(s, inner)
    else if Closes(s, j) then Some(j + 2)
    else BodyEnd(s, j + 1)
  }

  /** Counting depth finds the close that recursive descent finds. */
  lemma {:induction false} CountingIsNesting(s: string, j: nat, depth: nat)
    requires depth >= 1
    ensures CommentEnd(s, j, depth) ==
            match BodyEnd(s, j)
            case None => None
            case Some(e) => if depth == 1 then Some(e) else CommentEnd(s, e, depth - 1)
    decreases |s| - j
  {
    if j < |s| {
      if Opens(s, j) {
        CountingIsNesting(s, j + 2, depth + 1);
        if BodyEnd(s, j + 2).Some? {
          CountingIsNesting(s, BodyEnd(s, j + 2).value, depth);
        }
      } else if !Closes(s, j) {
        CountingIsNesting(s, j + 1, depth);
      }
    }
  }

  // ---------------------------------------------------------------- pieces

  datatype Kind = Code | Literal | Comment

  datatype Piece = Piece(kind: Kind, text: string)

  /** The kind and length of the first piece; `None` when a literal or a comment does not close. */
  function First(s: string): (r: Option<(Kind, nat)>)
    requires s != []
    ensures r.Some? ==> 0 < r.value.1 <= |s|
  {
    match OpeningOf(s)
    case Some(o) =>
      (match StringEnd(s, o.len, o.raw, o.hashes)
       case Some(e) => Some((Literal, e))
       case None => None)
    case None =>
      if Opens(s, 0) then
        match CommentEnd(s, 2, 1)
        case Some(e) => Some((Comment, e))
        case None => None
      else Some((Code, 1))
  }

  function Pieces(s: string): Option<seq<Piece>>
    decreases |s|
  {
    if s == [] then Some([])
    else
      match First(s)
      case None => None
      case Some((kind, n)) =>
        match Pieces(s[n..])
        case None => None
        case Some(rest) => Some([Piece(kind, s[..n])] + rest)
  }

  function Rendered(kind: Kind, text: string): string {
    if kind == Comment then " " else text
  }

  /** The text with each comment replaced by one space. */
  function Output(ps: seq<Piece>): string {
    if ps == [] then []
    else Rendered(ps[0].kind, ps[0].text) + Output(ps[1..])
  }

  function Text(ps: seq<Piece>): string {
    if ps == [] then [] else ps[0].text + Text(ps[1..])
  }

  /** Text gathered so far in front of what is still to come. */
  function Before(out: string, rest: Option<string>): Option<string> {
    match rest
    case None => None
    case Some(r) => Some(out + r)
  }

  function Cleaned(s: string): Option<string> {
    match Pieces(s)
    case None => None
    case Some(ps) => Some(Output(ps))
  }

  /** The stripped line, or the line itself if what is left of it is no text. */
  function Strip(line: string): string {
    match Cleaned(line)
    case None => line
    case Some(out) => if Utf8.Valid(out) then out else line
  }

  lemma CleanedStep(s: string)
    requires s != []
    ensures Cleaned(s) == match First(s)
                          case None => None
                          case Some((kind, n)) => Before(Rendered(kind, s[..n]), Cleaned(s[n..]))
  {
    if First(s).Some? {
      var n := First(s).value.1;
      if Pieces(s[n..]).Some? {
        assert Pieces(s).value[1..] == Pieces(s[n..]).value;
      }
    }
  }

  lemma BeforeTwice(a: string, b: string, rest: Option<string>)
    ensures Before(a, Before(b, rest)) == Before(a + b, rest)
  {
    if rest.Some? {
      assert a + (b + rest.value) == (a + b) + rest.value;
    }
  }

  /** One piece further, with its rendering moved from what is to come to what has been gathered. */
  lemma CleanedOn(line: string, out: string, i: nat, kind: Kind, n: nat)
    requires i < |line| && First(line[i..]) == Some((kind, n))
    ensures Before(out, Cleaned(line[i..])) == Before(out + Rendered(kind, line[i..i + n]), Cleaned(line[i + n..]))
  {
    CleanedStep(line[i..]);
    assert line[i..][..n] == line[i..i + n] && line[i..][n..] == line[i + n..];
    BeforeTwice(out, Rendered(kind, line[i..i + n]), Cleaned(line[i + n..]));
  }

  lemma BeforeEnds(out: string, rest: Option<string>)
    ensures Before([], rest) == rest && Before(out, Cleaned([])) == Some(out)
  {
    if rest.Some? {
      assert [] + rest.value == rest.value;
    }
    assert Cleaned([]) == Some([]) && out + [] == out;
  }

  // ---------------------------------------------------------------- the scanner as written

  method StripInlineBlockComments(line: string) returns (stripped: string)
    ensures stripped == Strip(line)
  {
    var out := CleanLine(line);
    if out.None? {
      return line;
    }
    return if Utf8.Valid(out.value) then out.value else line;
  }

  /** The scan: `None` as soon as a literal or a comment does not close on the line. */
  method CleanLine(line: string) returns (cleaned: Option<string>)
    ensures cleaned == Cleaned(line)
  {
    var out: string := [];
    var i := 0;
    BeforeEnds([], Cleaned(line));
    assert line[0..] == line;
    while i < |line|
      invariant i <= |line| && Cleaned(line) == Before(out, Cleaned(line[i..]))
    {
      var piece := NextPiece(line, i);
      if piece.None? {
        CleanedStep(line[i..]);
        return None;
      }
      var (kind, n) := piece.value;
      CleanedOn(line, out, i, kind, n);
      out := out + if kind == Comment then " " else line[i..i + n];
      i := i + n;
    }
    BeforeEnds(out, None);
    assert line[i..] == [];
    return Some(out);
  }

  /** The piece that starts at `i`: a literal if one opens there, else a comment, else one byte of code. */
  method NextPiece(line: string, i: nat) returns (piece: Option<(Kind, nat)>)
    requires i < |line|
    ensures piece == First(line[i..])
  {
    var opening := FindOpening(line, i);
    if opening.Some? {
      var close := FindClose(line, i, opening.value);
      return if close.Some? then Some((Literal, close.value)) else None;
    }
    if line[i] == '/' && i + 1 < |line| && line[i + 1] == '*' {
      var close := FindCommentEnd(line, i);
      return if close.Some? then Some((Comment, close.value)) else None;
    }
    return Some((Code, 1));
  }

  method FindOpening(line: string, i: nat) returns (o: Option<Opening>)
    requires i < |line|
    ensures o == OpeningOf(line[i..])
  {
    ghost var s := line[i..];
    if line[i] == '"' {
      return Some(Opening(1, 0, false));
    } else if line[i] == 'b' && i + 1 < |line| && line[i + 1] == '"' {
      return Some(Opening(2, 0, false));
    } else if line[i] == 'r' && i + 1 < |line| && line[i + 1] == '"' {
      return Some(Opening(2, 0, true));
    } else if (line[i] == 'r' && i + 1 < |line| && line[i + 1] == '#')
           || (line[i] == 'b' && i + 2 < |line| && line[i + 1] == 'r' && line[i + 2] == '#') {
      var from := if line[i] == 'b' then 2 else 1;
      var hashes := CountHashes(line, i, from);
      if i + from + hashes < |line| && line[i + from + hashes] == '"' {
        return Some(Opening(from + hashes + 1, hashes, true));
      }
    }
    return None;
  }

  method CountHashes(line: string, i: nat, from: nat) returns (hashes: nat)
    requires i + from <= |line|
    ensures hashes == HashRun(line[i..], from)
  {
    ghost var s := line[i..];
    hashes := 0;
    while i + from + hashes < |line| && line[i + from + hashes] == '#'
      invariant i + from + hashes <= |line| && HashRun(s, from) == hashes + HashRun(s, from + hashes)
    {
      hashes := hashes + 1;
    }
  }

  method FindClose(line: string, i: nat, o: Opening) returns (close: Option<nat>)
    requires i < |line| && OpeningOf(line[i..]) == Some(o)
    ensures close == StringEnd(line[i..], o.len, o.raw, o.hashes)
  {
    ghost var s := line[i..];
    var j := o.len;
    while i + j < |line|
      invariant StringEnd(s, o.len, o.raw, o.hashes) == StringEnd(s, j, o.raw, o.hashes)
      decreases |line| - j
    {
      if !o.raw && line[i + j] == '\\' {
        j := j + 2;
        continue;
      }
      if line[i + j] == '"' {
        var h := CountHashes(line, i, j + 1);
        if h == o.hashes {
          return Some(j + 1 + h);
        }
      }
      j := j + 1;
    }
    return None;
  }

  method FindCommentEnd(line: string, i: nat) returns (close: Option<nat>)
    requires i < |line|
    ensures close == CommentEnd(line[i..], 2, 1)
  {
    ghost var s := line[i..];
    var depth := 1;
    var j := 2;
    while i + j < |line|
      invariant depth >= 1 && CommentEnd(s, 2, 1) == CommentEnd(s, j, depth)
      decreases |line| - j
    {
      if line[i + j] == '/' && i + j + 1 < |line| && line[i + j + 1] == '*' {
        depth := depth + 1;
        j := j + 2;
      } else if line[i + j] == '*' && i + j + 1 < |line| && line[i + j + 1] == '/' {
        depth := depth - 1;
        j := j + 2;
        if depth == 0 {
          return Some(j);
        }
      } else {
        j := j + 1;
      }
    }
    return None;
  }
}
