/** How a path is read and followed in the `__exec__` context (evorule-tcb/src/path.rs), and which paths no
    pass can change. */
module ExecPaths {
  import opened Base
  import opened Json
  import opened Discipline
  import opened DisciplinePass
  import opened DisciplineSound

  // ---------------------------------------------------------------- reading a path

  /** A field, or an element of the array under a field or of the value itself. */
  datatype Segment = Field(name: string) | Index(field: Option<string>, at: u64)

  predicate IsDigit(c: char) {
    '0' <= c <= '9'
  }

  /** The value of a run of digits. */
  function Digits(s: string): Option<nat> {
    if s == [] then Some(0)
    else
      var front, last := Digits(s[..|s| - 1]), s[|s| - 1];
      if front.Some? && IsDigit(last) then Some(10 * front.value + (last as int - '0' as int)) else None
  }

  /** An index as `parse::<usize>` reads it: digits, perhaps after a plus sign, of a value that fits. */
  function ParseIndex(s: string): Option<u64> {
    var digits := if s != [] && s[0] == '+' then s[1..] else s;
    var value := if digits == [] then None else Digits(digits);
    if value.Some? && value.value < U64_SIZE then Some(value.value) else None
  }

  /** The position of the next closing bracket from `i` on. */
  function CloseFrom(path: string, i: nat): (j: Option<nat>)
    requires i <= |path|
    ensures j.Some? ==> i <= j.value < |path| && path[j.value] == ']'
    decreases |path| - i
  {
    if i == |path| then None else if path[i] == ']' then Some(i) else CloseFrom(path, i + 1)
  }

  function Prepend(front: seq<Segment>, rest: Option<seq<Segment>>): Option<seq<Segment>> {
    match rest
    case None => None
    case Some(segs) => Some(front + segs)
  }

  function Pending(current: string): seq<Segment> {
    if current == [] then [] else [Field(current)]
  }

  /** What may follow a closing bracket. */
  predicate MayFollow(path: string, i: nat) {
    i >= |path| || path[i] == '.' || path[i] == '['
  }

  /** The index whose opening bracket is at `i`, and the position behind its closing bracket. */
  function IndexFrom(path: string, i: nat): (r: Option<(u64, nat)>)
    requires i < |path|
    ensures r.Some? ==> i < r.value.1 <= |path|
  {
    match CloseFrom(path, i + 1)
    case None => None
    case Some(j) =>
      var at := ParseIndex(path[i + 1..j]);
      if at.None? || !MayFollow(path, j + 1) then None else Some((at.value, j + 1))
  }

  /** The segments from `i` on, when `current` has been gathered of the segment at hand; `closed` right after a
      closing bracket. */
  function SegmentsFrom(path: string, i: nat, current: string, closed: bool): Option<seq<Segment>>
    decreases |path| - i
  {
    if i >= |path| then
      if current == [] && !closed then None else Some(Pending(current))
    else if path[i] == '\\' then
      if i + 1 < |path| then SegmentsFrom(path, i + 2, current + [path[i + 1]], false) else None
    else if path[i] == '.' then
      if current == [] && !closed then None
      else Prepend(Pending(current), SegmentsFrom(path, i + 1, [], false))
    else if path[i] == '[' then
      match IndexFrom(path, i)
      case None => None
      case Some((at, next)) =>
        Prepend([Index(if current == [] then None else Some(current), at)], SegmentsFrom(path, next, [], true))
    else SegmentsFrom(path, i + 1, current + [path[i]], false)
  }

  function Segments(path: string): Option<seq<Segment>> {
    SegmentsFrom(path, 0, [], false)
  }

  lemma PrependTwice(a: seq<Segment>, b: seq<Segment>, rest: Option<seq<Segment>>)
    ensures Prepend(a, Prepend(b, rest)) == Prepend(a + b, rest)
    ensures Prepend([], rest) == rest
  {
    if rest.Some? {
      assert a + (b + rest.value) == a + b + rest.value && [] + rest.value == rest.value;
    }
  }

  method ParsePathSegments(path: string) returns (segments: Option<seq<Segment>>)
    ensures segments == Segments(path)
  {
    var out: seq<Segment> := [];
    var current: string, closed, i := [], false, 0;
    PrependTwice([], [], Segments(path));
    while i < |path|
      invariant i <= |path| && Segments(path) == Prepend(out, SegmentsFrom(path, i, current, closed))
      decreases |path| - i
    {
      PrependTwice(out, Pending(current), SegmentsFrom(path, i + 1, [], false));
      if path[i] == '\\' {
        if i + 1 == |path| {
          return None;
        }
        current, closed, i := current + [path[i + 1]], false, i + 2;
      } else if path[i] == '.' {
        if current == [] && !closed {
          return None;
        }
        out, current, closed, i := out + Pending(current), [], false, i + 1;
      } else if path[i] == '[' {
        var index := ReadIndex(path, i);
        if index.None? {
          return None;
        }
        var (at, next) := index.value;
        var segment := Index(if current == [] then None else Some(current), at);
        PrependTwice(out, [segment], SegmentsFrom(path, next, [], true));
        out, current, closed, i := out + [segment], [], true, next;
      } else {
        current, closed, i := current + [path[i]], false, i + 1;
      }
    }
    if current == [] && !closed {
      return None;
    }
    return Some(out + Pending(current));
  }

  method ReadIndex(path: string, i: nat) returns (index: Option<(u64, nat)>)
    requires i < |path|
    ensures index == IndexFrom(path, i)
  {
    for j := i + 1 to |path|
      invariant CloseFrom(path, i + 1) == CloseFrom(path, j)
    {
      if path[j] == ']' {
        var at := ParseIndex(path[i + 1..j]);
        return if at.None? || !MayFollow(path, j + 1) then None else Some((at.value, j + 1));
      }
    }
    return None;
  }

  // ---------------------------------------------------------------- following a path

  function Element(v: JsonValue, at: nat): Option<JsonValue> {
    if v.Array? && at < |v.items| then Some(v.items[at]) else None
  }

  function Enter(v: JsonValue, segment: Segment): Option<JsonValue> {
    match segment
    case Field(name) => Get(v, name)
    case Index(None, at) => Element(v, at)
    case Index(Some(field), at) =>
      match Get(v, field)
      case Some(inner) => Element(inner, at)
      case None => None
  }

  function Follow(v: JsonValue, segments: seq<Segment>): Option<JsonValue>
    decreases |segments|
  {
    if segments == [] then Some(v)
    else
      match Enter(v, segments[0])
      case Some(inner) => Follow(inner, segments[1..])
      case None => None
  }

  /** The segments to follow. A path that ends in a dot is refused, even if the dot is escaped. */
  function Route(path: string): Option<seq<Segment>> {
    if path == [] || path[|path| - 1] == '.' then None else Segments(path)
  }

  function Resolve(v: JsonValue, path: string): Option<JsonValue> {
    match Route(path)
    case Some(segments) => Follow(v, segments)
    case None => None
  }

  /** The context object, whose only fields these are. */
  function ExecObject(st: State): JsonValue {
    Object(map["instruction" := st.instruction, "payload" := st.payload, "queue" := st.queue])
  }

  const EXEC_PREFIX: string := "__exec__."

  function Stripped(path: string): string {
    if EXEC_PREFIX <= path then path[|EXEC_PREFIX|..] else path
  }

  /** Domain paths are relative to the context, with or without its prefix. */
  function ResolveExec(st: State, path: string): Option<JsonValue> {
    Resolve(ExecObject(st), Stripped(path))
  }

  /** Paths in this world are read as the source reads them. */
  ghost predicate RealPaths(w: World) {
    forall st: State, path: string :: w.resolve(st, path) == ResolveExec(st, path)
  }

  // ---------------------------------------------------------------- paths that no pass changes

  /** The field of the context that a segment enters. */
  function FieldOf(segment: Segment): Option<string> {
    match segment
    case Field(name) => Some(name)
    case Index(field, _) => field
  }

  /** The path does not lead into the payload or the queue: it leads into the instruction, or nowhere. */
  predicate FixedPath(path: string) {
    match Route(Stripped(path))
    case None => true
    case Some(segments) => segments != [] && FieldOf(segments[0]) !in {Some("payload"), Some("queue")}
  }

  lemma FixedPathsAreFixed(path: string, a: State, b: State)
    requires FixedPath(path) && a.instruction == b.instruction
    ensures ResolveExec(a, path) == ResolveExec(b, path)
  {
    var segments := Route(Stripped(path));
    if segments.Some? {
      assert Enter(ExecObject(a), segments.value[0]) == Enter(ExecObject(b), segments.value[0]);
    }
  }

  /** A value in which the segments lead to `leaf`. */
  function Nest(segments: seq<Segment>, leaf: JsonValue): JsonValue
    decreases |segments|
  {
    if segments == [] then leaf
    else
      var inner := Nest(segments[1..], leaf);
      match segments[0]
      case Field(name) => Object(map[name := inner])
      case Index(None, at) => Array(seq(at + 1, _ => inner))
      case Index(Some(field), at) => Object(map[field := Array(seq(at + 1, _ => inner))])
  }

  lemma {:induction false} NestLeadsToLeaf(segments: seq<Segment>, leaf: JsonValue)
    ensures Follow(Nest(segments, leaf), segments) == Some(leaf)
    decreases |segments|
  {
    if segments != [] {
      NestLeadsToLeaf(segments[1..], leaf);
    }
  }

  lemma NullLeadsNowhere(segments: seq<Segment>)
    ensures Follow(Null, segments) in {None, Some(Null)}
  {
  }

  /** A path into the payload is not fixed: some payloads have it and some do not, under any instruction. */
  lemma PayloadPathsAreNotFixed(w: World, path: string, instruction: JsonValue, queue: JsonValue) returns (a: JsonValue, b: JsonValue)
    requires RealPaths(w)
    requires var route := Route(Stripped(path));
             route.Some? && route.value != [] && FieldOf(route.value[0]) == Some("payload")
    ensures !SameAt(w, path, State(instruction, a, queue), State(instruction, b, queue))
  {
    var segments := Route(Stripped(path)).value;
    var nested := Nest(segments, Bool(true));
    a, b := nested.fields["payload"], Null;
    NestLeadsToLeaf(segments, Bool(true));
    var there, gone := State(instruction, a, queue), State(instruction, b, queue);
    assert Enter(ExecObject(there), segments[0]) == Enter(nested, segments[0]);
    assert ResolveExec(there, path) == Some(Bool(true));
    NullLeadsNowhere(segments[1..]);
    assert Follow(ExecObject(gone), segments) in {None, Some(Null)};
    assert ExistsAt(w, there, path) && !ExistsAt(w, gone, path);
  }

  lemma RealPathsRespectFixed(w: World)
    requires RealPaths(w)
    ensures Respects(w, FixedPath)
  {
    forall p: string, a: State, b: State | FixedPath(p) && a.instruction == b.instruction
      ensures SameAt(w, p, a, b)
    {
      FixedPathsAreFixed(p, a, b);
    }
  }

  /** With the source's own path reading: a rule set is sound in every pass if each exclusion is by instruction
      type, or by a path that does not lead into the payload or the queue. */
  lemma SoundOnFixedPaths(w: World, rules: seq<JsonValue>, st: State, t: nat, k: nat)
    requires RealPaths(w) && StaticOk(rules, FixedPath)
    requires var vs := Pass(w, rules, st);
             t < |vs| && k < |vs[t].run.trace| && IsRequest(vs[t].run.trace[k].node)
    ensures var vs := Pass(w, rules, st);
            Covers(Flattened(rules, |rules|), vs[t].run.trace[k], MutatedBefore(vs, t, k))
  {
    RealPathsRespectFixed(w);
    StaticallySound(w, rules, FixedPath, st, t, k);
  }

  // ---------------------------------------------------------------- writing a path

  /** A character with a meaning in a path, which a backslash takes away. */
  predicate Special(c: char) {
    c == '\\' || c == '.' || c == '['
  }

  /** The escaped form of one character. */
  function EscapedChar(c: char): string {
    if Special(c) then ['\\', c] else [c]
  }

  function Escaped(name: string): string {
    if name == [] then [] else EscapedChar(name[0]) + Escaped(name[1..])
  }

  function SegmentText(segment: Segment): string {
    match segment
    case Field(name) => Escaped(name)
    case Index(None, at) => "[" + Dec(at) + "]"
    case Index(Some(name), at) => Escaped(name) + ("[" + Dec(at) + "]")
  }

  /** The path that spells the segments. */
  function PathText(segments: seq<Segment>): string
    requires segments != []
  {
    if |segments| == 1 then SegmentText(segments[0])
    else SegmentText(segments[0]) + ("." + PathText(segments[1..]))
  }

  /** No name is empty: an empty name cannot be spelt. */
  predicate Named(segments: seq<Segment>) {
    forall i | 0 <= i < |segments| :: FieldOf(segments[i]) != Some([])
  }

  /** `text` stands in the path at `i`. */
  predicate StandsAt(path: string, i: nat, text: string) {
    i + |text| <= |path| && forall k | 0 <= k < |text| :: path[i + k] == text[k]
  }

  lemma StandsApart(path: string, i: nat, a: string, b: string)
    requires StandsAt(path, i, a + b)
    ensures StandsAt(path, i, a) && StandsAt(path, i + |a|, b)
  {
    var text := a + b;
    forall k | 0 <= k < |a|
      ensures path[i + k] == a[k]
    {
      assert text[k] == a[k];
    }
    forall k | 0 <= k < |b|
      ensures path[i + |a| + k] == b[k]
    {
      assert text[|a| + k] == b[k];
    }
  }

  lemma HeadRun(path: string, i: nat, c: char, current: string, closed: bool)
    requires StandsAt(path, i, EscapedChar(c))
    ensures SegmentsFrom(path, i, current, closed) == SegmentsFrom(path, i + |EscapedChar(c)|, current + [c], false)
  {
    assert path[i] == EscapedChar(c)[0];
    if Special(c) {
      assert path[i + 1] == EscapedChar(c)[1];
    }
  }

  /** Reading an escaped name gathers the name. */
  lemma {:induction false} EscapedRun(path: string, i: nat, name: string, current: string, gathered: string, closed: bool)
    requires name != [] && StandsAt(path, i, Escaped(name)) && gathered == current + name
    ensures SegmentsFrom(path, i, current, closed) == SegmentsFrom(path, i + |Escaped(name)|, gathered, false)
    decreases |name|
  {
    var head, tail := EscapedChar(name[0]), Escaped(name[1..]);
    StandsApart(path, i, head, tail);
    HeadRun(path, i, name[0], current, closed);
    if |name| > 1 {
      EscapedRun(path, i + |head|, name[1..], current + [name[0]], gathered, false);
    } else {
      assert name == [name[0]] && tail == [];
    }
  }

  predicate AllDigits(s: string) {
    forall k | 0 <= k < |s| :: IsDigit(s[k])
  }

  lemma {:induction false} DigitsOfDec(n: nat)
    ensures Digits(Dec(n)) == Some(n) && AllDigits(Dec(n))
  {
    var last := DIGITS[n % 10];
    assert IsDigit(last) && last as int - '0' as int == n % 10;
    if n < 10 {
      assert Dec(n) == [last] && [last][..0] == [];
    } else {
      DigitsOfDec(n / 10);
      assert Dec(n)[..|Dec(n)| - 1] == Dec(n / 10);
    }
  }

  lemma {:induction false} CloseAfterDigits(path: string, i: nat, j: nat)
    requires i <= j < |path| && path[j] == ']' && forall k | i <= k < j :: IsDigit(path[k])
    ensures CloseFrom(path, i) == Some(j)
    decreases j - i
  {
    if i < j {
      CloseAfterDigits(path, i + 1, j);
    }
  }

  /** The digits of an index stand at `i`, with a closing bracket behind them. */
  predicate IndexAt(path: string, i: nat, digits: string) {
    StandsAt(path, i, digits) && i + |digits| < |path| && path[i + |digits|] == ']'
  }

  lemma IndexIsRead(path: string, i: nat, digits: string, at: u64)
    requires i < |path| && IndexAt(path, i + 1, digits) && MayFollow(path, i + 2 + |digits|)
    requires digits != [] && AllDigits(digits) && Digits(digits) == Some(at)
    ensures IndexFrom(path, i) == Some((at, i + 2 + |digits|))
  {
    var first, close := i + 1, i + 1 + |digits|;
    forall k | first <= k < close
      ensures IsDigit(path[k])
    {
      assert path[first + (k - first)] == digits[k - first];
    }
    CloseAfterDigits(path, first, close);
    assert path[first..close] == digits && IsDigit(digits[0]);
  }

  /** What is read after a segment that ends at `end`. */
  function AfterSegment(path: string, end: nat): Option<seq<Segment>> {
    if end >= |path| then Some([]) else SegmentsFrom(path, end + 1, [], false)
  }

  predicate EndsAt(path: string, end: nat) {
    end >= |path| || path[end] == '.'
  }

  lemma FieldEnds(path: string, end: nat, name: string)
    requires name != [] && EndsAt(path, end)
    ensures SegmentsFrom(path, end, name, false) == Prepend([Field(name)], AfterSegment(path, end))
  {
    assert [Field(name)] + [] == [Field(name)];
  }

  lemma ClosedEnds(path: string, end: nat)
    requires EndsAt(path, end)
    ensures SegmentsFrom(path, end, [], true) == AfterSegment(path, end) && MayFollow(path, end)
  {
    PrependTwice([], [], AfterSegment(path, end));
  }

  /** Reading an index, its opening bracket at `i`. */
  lemma BracketRun(path: string, i: nat, digits: string, at: u64, current: string, closed: bool)
    requires i < |path| && path[i] == '[' && IndexAt(path, i + 1, digits) && EndsAt(path, i + 2 + |digits|)
    requires digits != [] && AllDigits(digits) && Digits(digits) == Some(at)
    ensures SegmentsFrom(path, i, current, closed)
         == Prepend([Index(if current == [] then None else Some(current), at)], AfterSegment(path, i + 2 + |digits|))
  {
    var end := i + 2 + |digits|;
    ClosedEnds(path, end);
    IndexIsRead(path, i, digits, at);
  }

  /** The brackets around an index, taken apart. */
  lemma BracketsStand(path: string, i: nat, digits: string)
    requires StandsAt(path, i, "[" + digits + "]")
    ensures path[i] == '[' && IndexAt(path, i + 1, digits)
  {
    var text := "[" + digits + "]";
    assert text[0] == '[' && text[1 + |digits|] == ']';
    forall k | 0 <= k < |digits|
      ensures path[i + 1 + k] == digits[k]
    {
      assert text[1 + k] == digits[k];
    }
  }

  lemma FieldRun(path: string, i: nat, name: string, end: nat, closed: bool)
    requires name != [] && StandsAt(path, i, Escaped(name)) && end == i + |Escaped(name)| && EndsAt(path, end)
    ensures SegmentsFrom(path, i, [], closed) == Prepend([Field(name)], AfterSegment(path, end))
  {
    EscapedRun(path, i, name, [], name, closed);
    FieldEnds(path, end, name);
  }

  lemma IndexRun(path: string, i: nat, at: u64, end: nat, current: string, closed: bool)
    requires StandsAt(path, i, "[" + Dec(at) + "]") && end == i + |Dec(at)| + 2 && EndsAt(path, end)
    ensures SegmentsFrom(path, i, current, closed)
         == Prepend([Index(if current == [] then None else Some(current), at)], AfterSegment(path, end))
  {
    DigitsOfDec(at);
    BracketsStand(path, i, Dec(at));
    BracketRun(path, i, Dec(at), at, current, closed);
  }

  lemma NamedIndexRun(path: string, i: nat, name: string, at: u64, end: nat, closed: bool)
    requires name != [] && StandsAt(path, i, SegmentText(Index(Some(name), at))) && EndsAt(path, end)
    requires end == i + |SegmentText(Index(Some(name), at))|
    ensures SegmentsFrom(path, i, [], closed) == Prepend([Index(Some(name), at)], AfterSegment(path, end))
  {
    var mid := i + |Escaped(name)|;
    StandsApart(path, i, Escaped(name), "[" + Dec(at) + "]");
    IndexRun(path, mid, at, end, name, false);
    EscapedRun(path, i, name, [], name, closed);
  }

  /** Reading one segment, up to its end or the dot that follows it. */
  lemma SegmentRun(path: string, i: nat, segment: Segment, end: nat, closed: bool)
    requires StandsAt(path, i, SegmentText(segment)) && FieldOf(segment) != Some([])
    requires end == i + |SegmentText(segment)| && EndsAt(path, end)
    ensures SegmentsFrom(path, i, [], closed) == Prepend([segment], AfterSegment(path, end))
  {
    match segment {
      case Field(name) =>
        FieldRun(path, i, name, end, closed);
      case Index(None, at) =>
        IndexRun(path, i, at, end, [], closed);
      case Index(Some(name), at) =>
        NamedIndexRun(path, i, name, at, end, closed);
    }
  }

  lemma PathSplit(path: string, i: nat, text: string, rest: string)
    requires StandsAt(path, i, text + ("." + rest))
    ensures StandsAt(path, i, text) && StandsAt(path, i + |text| + 1, rest) && path[i + |text|] == '.'
  {
    StandsApart(path, i, text, "." + rest);
    StandsApart(path, i + |text|, ".", rest);
    assert path[i + |text| + 0] == "."[0];
  }

  lemma FirstThenRest(path: string, i: nat, segments: seq<Segment>, end: nat, closed: bool)
    requires segments != [] && Named(segments) && EndsAt(path, end)
    requires StandsAt(path, i, SegmentText(segments[0])) && end == i + |SegmentText(segments[0])|
    requires AfterSegment(path, end) == Some(segments[1..])
    ensures SegmentsFrom(path, i, [], closed) == Some(segments)
  {
    SegmentRun(path, i, segments[0], end, closed);
    assert segments == [segments[0]] + segments[1..];
  }

  /** The text of the segments fills the path from `i` on. */
  predicate Fills(path: string, i: nat, segments: seq<Segment>)
    requires segments != []
  {
    StandsAt(path, i, PathText(segments)) && i + |PathText(segments)| == |path|
  }

  lemma FirstFills(path: string, i: nat, segments: seq<Segment>)
    requires segments != [] && Fills(path, i, segments)
    ensures var end := i + |SegmentText(segments[0])|;
            && StandsAt(path, i, SegmentText(segments[0])) && EndsAt(path, end)
            && (if |segments| == 1 then end == |path| else end < |path| && Fills(path, end + 1, segments[1..]))
  {
    if |segments| > 1 {
      PathSplit(path, i, SegmentText(segments[0]), PathText(segments[1..]));
    }
  }

  lemma {:induction false} PathRun(path: string, i: nat, segments: seq<Segment>, closed: bool)
    requires segments != [] && Named(segments) && Fills(path, i, segments)
    ensures SegmentsFrom(path, i, [], closed) == Some(segments)
    decreases |segments|
  {
    var end := i + |SegmentText(segments[0])|;
    FirstFills(path, i, segments);
    assert AfterSegment(path, end) == Some(segments[1..]) by {
      if |segments| > 1 {
        PathRun(path, end + 1, segments[1..], false);
      }
    }
    FirstThenRest(path, i, segments, end, closed);
  }

  /** Every list of named segments can be spelt, and reading it back gives the segments. */
  lemma PathRoundTrip(segments: seq<Segment>)
    requires segments != [] && Named(segments)
    ensures Segments(PathText(segments)) == Some(segments)
  {
    var path := PathText(segments);
    PathRun(path, 0, segments, false);
  }

  /** Resolving a spelt path follows its segments, unless the text ends in a dot: the escaped dot of a last
      field name is taken for a dangling one, and the path is refused. */
  lemma SpeltPathResolves(v: JsonValue, segments: seq<Segment>)
    requires segments != [] && Named(segments)
    ensures var path := PathText(segments);
            path != [] && Resolve(v, path) == if path[|path| - 1] == '.' then None else Follow(v, segments)
  {
    PathRoundTrip(segments);
  }

  /** So a field whose name ends in a dot can be spelt but not reached. */
  lemma TrailingDotIsRefused(v: JsonValue, name: string)
    ensures PathText([Field(name + ".")]) == Escaped(name) + ['\\', '.']
    ensures Resolve(v, PathText([Field(name + ".")])) == None
  {
    EscapedConcat(name, ".");
    assert "."[1..] == [];
  }

  // ---------------------------------------------------------------- malformed paths

  /** Behind an escaped name, reading goes on with the name gathered. */
  lemma BehindName(name: string, tail: string)
    ensures Segments(Escaped(name) + tail) == SegmentsFrom(Escaped(name) + tail, |Escaped(name)|, name, false)
  {
    if name != [] {
      EscapedRun(Escaped(name) + tail, 0, name, [], name, false);
    }
  }

  lemma {:induction false} NoClose(path: string, i: nat)
    requires i <= |path| && forall k | i <= k < |path| :: path[k] != ']'
    ensures CloseFrom(path, i).None?
    decreases |path| - i
  {
    if i < |path| {
      NoClose(path, i + 1);
    }
  }

  lemma {:induction false} FirstClose(path: string, i: nat, j: nat)
    requires i <= j < |path| && path[j] == ']' && forall k | i <= k < j :: path[k] != ']'
    ensures CloseFrom(path, i) == Some(j)
    decreases j - i
  {
    if i < j {
      FirstClose(path, i + 1, j);
    }
  }

  lemma {:induction false} DigitsAreDigits(s: string)
    requires Digits(s).Some?
    ensures AllDigits(s)
  {
    if s != [] {
      DigitsAreDigits(s[..|s| - 1]);
    }
  }

  /** Text that is no index: nothing, or something other than digits behind an optional plus sign. */
  predicate NoNumber(s: string) {
    s == [] || exists k | 0 <= k < |s| :: !IsDigit(s[k]) && !(k == 0 && s[0] == '+')
  }

  lemma IndexIsNumber(s: string)
    requires ParseIndex(s).Some?
    ensures !NoNumber(s)
  {
    var digits := if s[0] == '+' then s[1..] else s;
    DigitsAreDigits(digits);
    forall k | 0 <= k < |s| && !(k == 0 && s[0] == '+')
      ensures IsDigit(s[k])
    {
      assert s[k] == if s[0] == '+' then digits[k - 1] else digits[k];
    }
  }

  /** Behind any name a second dot and a lone backslash are refused. */
  lemma LooseEndsAreRefused(name: string, rest: string)
    ensures Segments(Escaped(name) + (".." + rest)).None?
    ensures Segments(Escaped(name) + "\\").None?
  {
    var path, i := Escaped(name) + (".." + rest), |Escaped(name)|;
    BehindName(name, ".." + rest);
    assert path[i] == '.' && path[i + 1] == '.';
    BehindName(name, "\\");
  }

  predicate NoBracket(s: string) {
    forall k | 0 <= k < |s| :: s[k] != ']'
  }

  /** So is a bracket that is not closed. */
  lemma OpenBracketIsRefused(name: string, rest: string)
    requires NoBracket(rest)
    ensures Segments(Escaped(name) + ("[" + rest)).None?
  {
    var path, i := Escaped(name) + ("[" + rest), |Escaped(name)|;
    BehindName(name, "[" + rest);
    assert path[i] == '[' && path[i + 1..] == rest;
    forall k | i + 1 <= k < |path|
      ensures path[k] != ']'
    {
      assert path[k] == rest[k - i - 1];
    }
    NoClose(path, i + 1);
  }

  lemma BracketCloses(path: string, i: nat, inner: string)
    requires StandsAt(path, i + 1, inner) && i + 1 + |inner| < |path| && path[i + 1 + |inner|] == ']' && NoBracket(inner)
    ensures CloseFrom(path, i + 1) == Some(i + 1 + |inner|) && path[i + 1..i + 1 + |inner|] == inner
  {
    forall k | i + 1 <= k < i + 1 + |inner|
      ensures path[k] != ']'
    {
      assert path[i + 1 + (k - i - 1)] == inner[k - i - 1];
    }
    FirstClose(path, i + 1, i + 1 + |inner|);
  }

  /** `inner` stands between brackets at `i`, and is no index or has something wrong behind it. */
  predicate BadBracket(path: string, i: nat, inner: string) {
    && NoBracket(inner) && StandsAt(path, i, "[" + inner + "]")
    && (NoNumber(inner) || !MayFollow(path, i + 2 + |inner|))
  }

  lemma BadBracketIsRefused(path: string, i: nat, inner: string, current: string, closed: bool)
    requires BadBracket(path, i, inner)
    ensures SegmentsFrom(path, i, current, closed).None?
  {
    BracketsStand(path, i, inner);
    BracketCloses(path, i, inner);
    if ParseIndex(inner).Some? {
      IndexIsNumber(inner);
    }
  }

  lemma StandsBehind(head: string, text: string, rest: string)
    ensures StandsAt(head + (text + rest), |head|, text)
    ensures rest != [] ==> (head + (text + rest))[|head| + |text|] == rest[0]
  {
    assert (head + (text + rest))[|head|..] == text + rest;
  }

  /** So are a bracket that holds no number, and anything but a dot or a bracket right behind a closed one. */
  lemma BadBracketsAreRefused(name: string, inner: string, rest: string)
    requires NoBracket(inner)
    requires NoNumber(inner) || (rest != [] && rest[0] != '.' && rest[0] != '[')
    ensures Segments(Escaped(name) + ("[" + inner + "]" + rest)).None?
  {
    var text := "[" + inner + "]";
    BehindName(name, text + rest);
    StandsBehind(Escaped(name), text, rest);
    BadBracketIsRefused(Escaped(name) + (text + rest), |Escaped(name)|, inner, name, false);
  }

  lemma Reassociate(a: string, b: string, c: string)
    ensures a + (b + c) == a + b + c
  {
  }

  lemma {:induction false} EscapedConcat(a: string, b: string)
    ensures Escaped(a + b) == Escaped(a) + Escaped(b)
  {
    if a == [] {
      assert a + b == b;
    } else {
      EscapedConcat(a[1..], b);
      assert (a + b)[1..] == a[1..] + b && (a + b)[0] == a[0];
      Reassociate(EscapedChar(a[0]), Escaped(a[1..]), Escaped(b));
    }
  }

  // ---------------------------------------------------------------- plain paths

  lemma {:induction false} EscapedPlain(name: string)
    requires forall k | 0 <= k < |name| :: !Special(name[k])
    ensures Escaped(name) == name
  {
    if name != [] {
      EscapedPlain(name[1..]);
    }
  }

  /** A plain name in front of a dot is the first segment. */
  lemma FirstSegment(name: string, rest: string)
    requires name != [] && forall k | 0 <= k < |name| :: !Special(name[k])
    ensures Segments(name + "." + rest) == Prepend([Field(name)], SegmentsFrom(name + "." + rest, |name| + 1, [], false))
  {
    var path := name + "." + rest;
    EscapedPlain(name);
    FieldRun(path, 0, name, |name|, false);
  }

  lemma FirstFieldDecides(path: string, name: string, rest: string)
    requires name != [] && forall k | 0 <= k < |name| :: !Special(name[k])
    requires Stripped(path) == name + "." + rest && name !in {"payload", "queue"}
    ensures FixedPath(path)
  {
    FirstSegment(name, rest);
    var tail := SegmentsFrom(name + "." + rest, |name| + 1, [], false);
    if tail.Some? {
      assert ([Field(name)] + tail.value)[0] == Field(name);
    }
  }

  /** Paths below `instruction`, with or without the prefix, are fixed. */
  lemma InstructionPathsAreFixed(rest: string)
    ensures FixedPath("instruction" + "." + rest) && FixedPath(EXEC_PREFIX + ("instruction" + "." + rest))
  {
    var path := "instruction" + "." + rest;
    assert (EXEC_PREFIX + path)[|EXEC_PREFIX|..] == path;
    assert path[0] == 'i' && EXEC_PREFIX[0] == '_';
    assert |"instruction"| == 11 && |"payload"| == 7 && |"queue"| == 5;
    FirstFieldDecides(path, "instruction", rest);
    FirstFieldDecides(EXEC_PREFIX + path, "instruction", rest);
  }
}
