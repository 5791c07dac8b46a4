/** Signed anchors over the fact chain: the chain builder and verifiers of
    evorule-governance/src/anchor.rs and the independent verifier of
    evid-verify-core/src/seal.rs. */
module Anchors {
  import opened Base
  import opened Facts
  import opened HashChain

  datatype SigCheck = Valid | Mismatch | Malformed

  /** ed25519 with hex-encoded keys and signatures, left abstract: `check` is `Malformed` when the
      key or the signature does not decode to the right length or the key is not a curve point. */
  datatype Crypto = Crypto(
    kernel: Kernel,
    sign: (string, string) -> string,
    publicKey: string -> string,
    check: (string, string, string) -> SigCheck)

  ghost predicate SignatureCorrect(c: Crypto) {
    forall seed: string, text: string :: c.check(c.publicKey(seed), text, c.sign(seed, text)) == Valid
  }

  const ANCHOR_GENESIS: string := "anchor-genesis"
  const ANCHOR_FORMAT: string := "evorule-anchor/2"

  datatype AnchorProto = AnchorProto(
    seqNo: nat, sessionId: string, lo: nat, hi: nat, chainHead: string, keyId: string, engineId: string,
    logicalTime: nat)

  /** An anchor is its payload fields plus hash and signature (an `AnchorSeal` has the same fields). */
  datatype AuditAnchor = AuditAnchor(proto: AnchorProto, anchorHash: string, signature: string)

  /** key_id to hex public key. */
  type KeyTable = map<string, string>

  function PayloadFields(head: string, p: AnchorProto): seq<string> {
    [head, p.sessionId, Dec(p.seqNo), Dec(p.lo), Dec(p.hi), p.chainHead, p.keyId, p.engineId, Dec(p.logicalTime)]
  }

  function SignaturePayload(p: AnchorProto): string {
    Join(PayloadFields(ANCHOR_FORMAT, p))
  }

  function HashInput(prev: string, p: AnchorProto): string {
    Join(PayloadFields(prev, p))
  }

  function AnchorHash(k: Kernel, prev: string, p: AnchorProto): string {
    k.blake3(HashInput(prev, p))
  }

  // ---------------------------------------------------------------- framing

  /** The payload fields whose text the caller chooses. */
  datatype TextField = Session | Head | Key | Engine {
    /** Where the field stands among the nine joined ones. */
    function Position(): nat {
      match this
      case Session => 1
      case Head => 5
      case Key => 6
      case Engine => 7
    }

    function Of(p: AnchorProto): string {
      PayloadFields("", p)[Position()]
    }
  }

  /** Bars occur in no text field outside `fields`. */
  ghost predicate BarsOnlyIn(p: AnchorProto, fields: set<TextField>) {
    forall t: TextField | t !in fields :: BarFree(t.Of(p))
  }

  /** The nine joined fields determine the payload and the head in front of it, if at most the one text
      field `free` may hold bars. */
  lemma PayloadInjective(x: string, p: AnchorProto, y: string, q: AnchorProto, free: TextField)
    requires BarFree(x) && BarFree(y) && BarsOnlyIn(p, {free}) && BarsOnlyIn(q, {free})
    requires Join(PayloadFields(x, p)) == Join(PayloadFields(y, q))
    ensures x == y && p == q
  {
    var a, b := PayloadFields(x, p), PayloadFields(y, q);
    OtherFieldsAreBarFree(x, p, free);
    OtherFieldsAreBarFree(y, q, free);
    JoinInjective(a, b, free.Position());
    assert a[0] == b[0] && a[1] == b[1] && a[5] == b[5] && a[6] == b[6] && a[7] == b[7];
    assert a[2] == b[2] && a[3] == b[3] && a[4] == b[4] && a[8] == b[8];
    DecInjective(p.seqNo, q.seqNo);
    DecInjective(p.lo, q.lo);
    DecInjective(p.hi, q.hi);
    DecInjective(p.logicalTime, q.logicalTime);
  }

  lemma OtherFieldsAreBarFree(x: string, p: AnchorProto, free: TextField)
    requires BarFree(x) && BarsOnlyIn(p, {free})
    ensures forall i | 0 <= i < 9 && i != free.Position() :: BarFree(PayloadFields(x, p)[i])
  {
    DecHasNoBar(p.seqNo);
    DecHasNoBar(p.lo);
    DecHasNoBar(p.hi);
    DecHasNoBar(p.logicalTime);
    assert free != Session ==> BarFree(Session.Of(p));
    assert free != Head ==> BarFree(Head.Of(p));
    assert free != Key ==> BarFree(Key.Of(p));
    assert free != Engine ==> BarFree(Engine.Of(p));
  }

  /** A payload of zeros with one bar, in field `t`. */
  function OneBar(t: TextField): AnchorProto {
    AnchorProto(0, OneBarText(t, Session), 0, 0, OneBarText(t, Head), OneBarText(t, Key), OneBarText(t, Engine), 0)
  }

  function OneBarText(t: TextField, field: TextField): string {
    if t == field then "0" + "|" + "0" else "0"
  }

  /** Ten zeros behind `x`, the last of them the text of the numbers. */
  function TenFields(x: string): seq<string> {
    [x, "0", "0", "0", "0", "0", "0", "0", "0", "0"]
  }

  /** Wherever the one bar stands, the joined payload is the same. */
  lemma OneBarJoins(x: string, t: TextField)
    ensures Join(PayloadFields(x, OneBar(t))) == Join(TenFields(x))
  {
    var ten := TenFields(x);
    JoinMerge(ten, t.Position());
    assert Dec(0) == "0";
    match t {
      case Session => assert PayloadFields(x, OneBar(t)) == ten[..1] + ["0" + "|" + "0"] + ten[3..];
      case Head => assert PayloadFields(x, OneBar(t)) == ten[..5] + ["0" + "|" + "0"] + ten[7..];
      case Key => assert PayloadFields(x, OneBar(t)) == ten[..6] + ["0" + "|" + "0"] + ten[8..];
      case Engine => assert PayloadFields(x, OneBar(t)) == ten[..7] + ["0" + "|" + "0"] + ten[9..];
    }
  }

  lemma OneBarIsThere(t: TextField, fields: set<TextField>)
    requires t in fields
    ensures BarsOnlyIn(OneBar(t), fields)
    ensures |t.Of(OneBar(t))| == 3 && forall u: TextField | u != t :: |u.Of(OneBar(t))| == 1
  {
  }

  /** The joined text determines the payload, and the head in front of it, when bars occur in no text field
      outside `fields`. */
  ghost predicate Framed(fields: set<TextField>) {
    forall x: string, p: AnchorProto, y: string, q: AnchorProto |
      BarFree(x) && BarFree(y) && BarsOnlyIn(p, fields) && BarsOnlyIn(q, fields) :: !FramesClash(x, p, y, q)
  }

  predicate FramesClash(x: string, p: AnchorProto, y: string, q: AnchorProto) {
    (x != y || p != q) && Join(PayloadFields(x, p)) == Join(PayloadFields(y, q))
  }

  lemma AtMostOneIsFramed(fields: set<TextField>, free: TextField)
    requires fields <= {free}
    ensures Framed(fields)
  {
    forall x: string, p: AnchorProto, y: string, q: AnchorProto |
      BarFree(x) && BarFree(y) && BarsOnlyIn(p, fields) && BarsOnlyIn(q, fields)
      ensures !FramesClash(x, p, y, q)
    {
      if FramesClash(x, p, y, q) {
        PayloadInjective(x, p, y, q, free);
      }
    }
  }

  lemma ClashUnframes(fields: set<TextField>, x: string, p: AnchorProto, q: AnchorProto)
    requires BarFree(x) && BarsOnlyIn(p, fields) && BarsOnlyIn(q, fields)
    requires p != q && Join(PayloadFields(x, p)) == Join(PayloadFields(x, q))
    ensures !Framed(fields)
  {
    assert FramesClash(x, p, x, q);
  }

  lemma TwoAreNotFramed(fields: set<TextField>, x: string, t: TextField, u: TextField)
    requires t in fields && u in fields && t != u && BarFree(x)
    ensures !Framed(fields)
  {
    var p, q := OneBar(t), OneBar(u);
    assert Join(PayloadFields(x, p)) == Join(PayloadFields(x, q)) by {
      OneBarJoins(x, t);
      OneBarJoins(x, u);
    }
    assert p != q && BarsOnlyIn(p, fields) && BarsOnlyIn(q, fields) by {
      OneBarsDiffer(fields, t, u);
    }
    ClashUnframes(fields, x, p, q);
  }

  lemma OneBarsDiffer(fields: set<TextField>, t: TextField, u: TextField)
    requires t in fields && u in fields && t != u
    ensures OneBar(t) != OneBar(u) && BarsOnlyIn(OneBar(t), fields) && BarsOnlyIn(OneBar(u), fields)
  {
    OneBarIsThere(t, fields);
    OneBarIsThere(u, fields);
    assert |t.Of(OneBar(t))| != |t.Of(OneBar(u))|;
  }

  /** The framing is unambiguous exactly when at most one of the text fields may hold bars. */
  lemma FramedIffOneField(fields: set<TextField>)
    ensures Framed(fields) <==> |fields| <= 1
  {
    if fields == {} {
      AtMostOneIsFramed(fields, Session);
    } else {
      var t :| t in fields;
      assert |fields - {t}| == |fields| - 1;
      if fields - {t} == {} {
        AtMostOneIsFramed(fields, t);
      } else {
        var u :| u in fields - {t};
        TwoAreNotFramed(fields, ANCHOR_FORMAT, t, u);
      }
    }
  }

  /** Bars in two fields defeat the framing: for any names, a `0` can move from the end of the
      session id to the front of the chain head without changing the payload. */
  lemma BarsBreakFraming(session: string, head: string, key: string, engine: string)
    ensures var p := AnchorProto(0, session + "|" + "0", 0, 0, head, key, engine, 0);
            var q := AnchorProto(0, session, 0, 0, "0" + "|" + head, key, engine, 0);
            p != q && SignaturePayload(p) == SignaturePayload(q)
  {
    var p := AnchorProto(0, session + "|" + "0", 0, 0, head, key, engine, 0);
    var q := AnchorProto(0, session, 0, 0, "0" + "|" + head, key, engine, 0);
    var ten := [ANCHOR_FORMAT, session, "0", "0", "0", "0", head, key, engine, "0"];
    assert Dec(0) == "0";
    JoinMerge(ten, 1);
    assert PayloadFields(ANCHOR_FORMAT, p) == ten[..1] + [session + "|" + "0"] + ten[3..];
    JoinMerge(ten, 5);
    assert PayloadFields(ANCHOR_FORMAT, q) == ten[..5] + ["0" + "|" + head] + ten[7..];
    assert |p.sessionId| != |q.sessionId|;
  }

  // ---------------------------------------------------------------- verifying a chain

  datatype BrokenReason = SeqGap | RangeGap | UnknownKey | PayloadHash | TooFewFacts | HeadMismatch

  datatype AnchorError =
    | Hash(cause: HashError)
    | Sign
    | ChainBroken(index: nat, reason: BrokenReason)
    | SignatureInvalid(index: nat)

  /** The head the next anchor must extend, after the first `n`. */
  function PrevHash(anchors: seq<AuditAnchor>, n: nat): string
    requires n <= |anchors|
  {
    if n == 0 then ANCHOR_GENESIS else anchors[n - 1].anchorHash
  }

  /** The fact index the next anchor must start at, after the first `n`. */
  function NextLo(anchors: seq<AuditAnchor>, n: nat): nat
    requires n <= |anchors|
  {
    if n == 0 then 0 else anchors[n - 1].proto.hi
  }

  /** `verify_one`: `None` is success. */
  function VerifyOne(c: Crypto, a: AuditAnchor, prev: string, key: string): Option<AnchorError> {
    if AnchorHash(c.kernel, prev, a.proto) != a.anchorHash then Some(ChainBroken(a.proto.seqNo, PayloadHash))
    else
      match c.check(key, SignaturePayload(a.proto), a.signature)
      case Malformed => Some(Sign)
      case Mismatch => Some(SignatureInvalid(a.proto.seqNo))
      case Valid => None
  }

  /** What anchor `i` is rejected for when everything before it is fine. */
  function AnchorFailure(c: Crypto, anchors: seq<AuditAnchor>, keys: KeyTable, i: nat): Option<AnchorError>
    requires i < |anchors|
  {
    var a := anchors[i];
    if a.proto.seqNo != i then Some(ChainBroken(i, SeqGap))
    else if a.proto.lo != NextLo(anchors, i) then Some(ChainBroken(i, RangeGap))
    else if a.proto.keyId !in keys then Some(ChainBroken(i, UnknownKey))
    else VerifyOne(c, a, PrevHash(anchors, i), keys[a.proto.keyId])
  }

  /** Anchor `i` continues the chain and is genuinely signed. */
  predicate Continues(c: Crypto, anchors: seq<AuditAnchor>, keys: KeyTable, i: nat)
    requires i < |anchors|
  {
    var a := anchors[i];
    && a.proto.seqNo == i
    && a.proto.lo == NextLo(anchors, i)
    && a.proto.keyId in keys
    && a.anchorHash == AnchorHash(c.kernel, PrevHash(anchors, i), a.proto)
    && c.check(keys[a.proto.keyId], SignaturePayload(a.proto), a.signature) == Valid
  }

  predicate ChainValid(c: Crypto, anchors: seq<AuditAnchor>, keys: KeyTable) {
    forall i | 0 <= i < |anchors| :: Continues(c, anchors, keys, i)
  }

  method VerifyAnchorChain(c: Crypto, anchors: seq<AuditAnchor>, keys: KeyTable) returns (r: Result<(), AnchorError>)
    ensures r.Ok? <==> ChainValid(c, anchors, keys)
    ensures r.Err? ==> exists i | 0 <= i < |anchors| ::
              && AnchorFailure(c, anchors, keys, i) == Some(r.error)
              && forall j | 0 <= j < i :: Continues(c, anchors, keys, j)
  {
    var prevHash := ANCHOR_GENESIS;
    var expectLo := 0;
    for i := 0 to |anchors|
      invariant prevHash == PrevHash(anchors, i) && expectLo == NextLo(anchors, i)
      invariant forall j | 0 <= j < i :: Continues(c, anchors, keys, j)
    {
      var a := anchors[i];
      assert AnchorFailure(c, anchors, keys, i).None? <==> Continues(c, anchors, keys, i);
      if a.proto.seqNo != i {
        return Err(ChainBroken(i, SeqGap));
      }
      if a.proto.lo != expectLo {
        return Err(ChainBroken(i, RangeGap));
      }
      if a.proto.keyId !in keys {
        return Err(ChainBroken(i, UnknownKey));
      }
      var failure := VerifyOne(c, a, prevHash, keys[a.proto.keyId]);
      if failure.Some? {
        return Err(failure.value);
      }
      prevHash, expectLo := a.anchorHash, a.proto.hi;
    }
    return Ok(());
  }

  // ---------------------------------------------------------------- the independent verifier

  datatype SealError =
    | PayloadHashMismatch(seqNo: nat)
    | SealSignatureInvalid(seqNo: nat)
    | SealChainBroken(seqNo: nat)
    | KeyMissing(keyId: string)
    | HexInvalid(seqNo: nat)

  function VerifySeal(c: Crypto, a: AuditAnchor, prev: string, key: string): Option<SealError> {
    if AnchorHash(c.kernel, prev, a.proto) != a.anchorHash then Some(PayloadHashMismatch(a.proto.seqNo))
    else
      match c.check(key, SignaturePayload(a.proto), a.signature)
      case Malformed => Some(HexInvalid(a.proto.seqNo))
      case Mismatch => Some(SealSignatureInvalid(a.proto.seqNo))
      case Valid => None
  }

  /** What seal `i` is rejected for when everything before it is fine. */
  function SealFailure(c: Crypto, seals: seq<AuditAnchor>, keys: KeyTable, i: nat): Option<SealError>
    requires i < |seals|
  {
    var s := seals[i];
    if s.proto.seqNo != i || s.proto.lo != NextLo(seals, i) || s.proto.lo > s.proto.hi then
      Some(SealChainBroken(s.proto.seqNo))
    else if s.proto.keyId !in keys then Some(KeyMissing(s.proto.keyId))
    else VerifySeal(c, s, PrevHash(seals, i), keys[s.proto.keyId])
  }

  /** A chain whose ranges never run backwards. */
  predicate Ordered(anchors: seq<AuditAnchor>) {
    forall i | 0 <= i < |anchors| :: anchors[i].proto.lo <= anchors[i].proto.hi
  }

  /** No seal is rejected exactly when the other verifier accepts and the ranges are ordered. */
  lemma SealsAgree(c: Crypto, seals: seq<AuditAnchor>, keys: KeyTable)
    ensures (forall i | 0 <= i < |seals| :: SealFailure(c, seals, keys, i).None?)
       <==> ChainValid(c, seals, keys) && Ordered(seals)
  {
    forall i | 0 <= i < |seals|
      ensures SealFailure(c, seals, keys, i).None? <==>
              Continues(c, seals, keys, i) && seals[i].proto.lo <= seals[i].proto.hi
    {
    }
  }

  /** `verify_seal_chain` accepts exactly the chains that `verify_anchor_chain` accepts
      and whose ranges do not run backwards; the error is that of the first seal it rejects. */
  method VerifySealChain(c: Crypto, seals: seq<AuditAnchor>, keys: KeyTable) returns (r: Result<(), SealError>)
    ensures r.Ok? <==> ChainValid(c, seals, keys) && Ordered(seals)
    ensures r.Err? ==> exists i | 0 <= i < |seals| ::
              && SealFailure(c, seals, keys, i) == Some(r.error)
              && forall j | 0 <= j < i :: SealFailure(c, seals, keys, j).None?
  {
    var prevHash := ANCHOR_GENESIS;
    var expectedLo: Option<nat> := Some(0);
    for i := 0 to |seals|
      invariant prevHash == PrevHash(seals, i) && expectedLo == Some(NextLo(seals, i))
      invariant forall j | 0 <= j < i :: SealFailure(c, seals, keys, j).None?
    {
      var s := seals[i];
      assert SealFailure(c, seals, keys, i).None? <==>
             s.proto.seqNo == i && s.proto.lo == NextLo(seals, i) && s.proto.lo <= s.proto.hi && s.proto.keyId in keys
             && VerifySeal(c, s, prevHash, keys[s.proto.keyId]).None?;
      if s.proto.seqNo != i {
        SealsAgree(c, seals, keys);
        return Err(SealChainBroken(s.proto.seqNo));
      }
      if expectedLo.Some? && s.proto.lo != expectedLo.value {
        SealsAgree(c, seals, keys);
        return Err(SealChainBroken(s.proto.seqNo));
      }
      if s.proto.lo > s.proto.hi {
        SealsAgree(c, seals, keys);
        return Err(SealChainBroken(s.proto.seqNo));
      }
      if s.proto.keyId !in keys {
        SealsAgree(c, seals, keys);
        return Err(KeyMissing(s.proto.keyId));
      }
      var failure := VerifySeal(c, s, prevHash, keys[s.proto.keyId]);
      if failure.Some? {
        SealsAgree(c, seals, keys);
        return Err(failure.value);
      }
      prevHash, expectedLo := s.anchorHash, Some(s.proto.hi);
    }
    SealsAgree(c, seals, keys);
    return Ok(());
  }

  /** Which error an anchor is rejected with: number, range and key come first, then hash and signature. */
  lemma AnchorErrorsAreNamed(c: Crypto, anchors: seq<AuditAnchor>, keys: KeyTable, i: nat)
    requires i < |anchors|
    ensures var a, why := anchors[i].proto, AnchorFailure(c, anchors, keys, i);
            var inPlace := a.seqNo == i && a.lo == NextLo(anchors, i) && a.keyId in keys;
            && (why == Some(ChainBroken(i, SeqGap)) <==> a.seqNo != i)
            && (why == Some(ChainBroken(i, RangeGap)) <==> a.seqNo == i && a.lo != NextLo(anchors, i))
            && (why == Some(ChainBroken(i, UnknownKey)) <==> a.seqNo == i && a.lo == NextLo(anchors, i) && a.keyId !in keys)
            && (why == Some(ChainBroken(i, PayloadHash)) <==> inPlace && !Hashed(c, anchors, i))
            && (why == Some(Sign) <==> inPlace && Hashed(c, anchors, i) && Checked(c, anchors, keys, i) == Malformed)
            && (why == Some(SignatureInvalid(i)) <==>
                  inPlace && Hashed(c, anchors, i) && Checked(c, anchors, keys, i) == Mismatch)
  {
  }

  predicate Hashed(c: Crypto, anchors: seq<AuditAnchor>, i: nat)
    requires i < |anchors|
  {
    anchors[i].anchorHash == AnchorHash(c.kernel, PrevHash(anchors, i), anchors[i].proto)
  }

  function Checked(c: Crypto, anchors: seq<AuditAnchor>, keys: KeyTable, i: nat): SigCheck
    requires i < |anchors| && anchors[i].proto.keyId in keys
  {
    c.check(keys[anchors[i].proto.keyId], SignaturePayload(anchors[i].proto), anchors[i].signature)
  }

  /** The same for the independent verifier, whose chain errors do not tell number, range and order apart. */
  lemma SealErrorsAreNamed(c: Crypto, seals: seq<AuditAnchor>, keys: KeyTable, i: nat)
    requires i < |seals|
    ensures var s, why := seals[i].proto, SealFailure(c, seals, keys, i);
            var linked := s.seqNo == i && s.lo == NextLo(seals, i) && s.lo <= s.hi;
            && (why == Some(SealChainBroken(s.seqNo)) <==> !linked)
            && (why == Some(KeyMissing(s.keyId)) <==> linked && s.keyId !in keys)
            && (why == Some(PayloadHashMismatch(s.seqNo)) <==> linked && s.keyId in keys && !Hashed(c, seals, i))
            && (why == Some(HexInvalid(s.seqNo)) <==>
                  linked && s.keyId in keys && Hashed(c, seals, i) && Checked(c, seals, keys, i) == Malformed)
            && (why == Some(SealSignatureInvalid(s.seqNo)) <==>
                  linked && s.keyId in keys && Hashed(c, seals, i) && Checked(c, seals, keys, i) == Mismatch)
  {
  }

  // ---------------------------------------------------------------- what acceptance means

  /** In an accepted, ordered chain the ranges partition the facts below the last `hi`. */
  lemma {:induction false} Coverage(c: Crypto, anchors: seq<AuditAnchor>, keys: KeyTable, n: nat, fact: nat)
    requires ChainValid(c, anchors, keys) && Ordered(anchors)
    requires n <= |anchors| && fact < NextLo(anchors, n)
    ensures exists i | 0 <= i < n :: anchors[i].proto.lo <= fact < anchors[i].proto.hi
    ensures forall i, j | 0 <= i < j < |anchors| ::
              !(anchors[i].proto.lo <= fact < anchors[i].proto.hi && anchors[j].proto.lo <= fact < anchors[j].proto.hi)
  {
    RangesAscend(c, anchors, keys);
    if n > 0 {
      assert Continues(c, anchors, keys, n - 1);
      if fact < anchors[n - 1].proto.lo {
        Coverage(c, anchors, keys, n - 1, fact);
      }
    }
  }

  lemma RangesAscend(c: Crypto, anchors: seq<AuditAnchor>, keys: KeyTable)
    requires ChainValid(c, anchors, keys) && Ordered(anchors)
    ensures forall i, j | 0 <= i < j < |anchors| :: anchors[i].proto.hi <= anchors[j].proto.lo
  {
    forall i, j | 0 <= i < j < |anchors|
      ensures anchors[i].proto.hi <= anchors[j].proto.lo
    {
      RangeBefore(c, anchors, keys, i, j);
    }
  }

  lemma {:induction false} RangeBefore(c: Crypto, anchors: seq<AuditAnchor>, keys: KeyTable, i: nat, j: nat)
    requires ChainValid(c, anchors, keys) && Ordered(anchors) && i < j < |anchors|
    ensures anchors[i].proto.hi <= anchors[j].proto.lo
    decreases j
  {
    assert Continues(c, anchors, keys, j);
    if j > i + 1 {
      RangeBefore(c, anchors, keys, i, j - 1);
    }
  }

  /** The anchors of `full` at strictly increasing positions `picks`. */
  ghost predicate Picks(full: seq<AuditAnchor>, picks: seq<nat>) {
    && (forall j | 0 <= j < |picks| :: picks[j] < |full|)
    && (forall i, j | 0 <= i < j < |picks| :: picks[i] < picks[j])
  }

  ghost function Picked(full: seq<AuditAnchor>, picks: seq<nat>): seq<AuditAnchor>
    requires Picks(full, picks)
  {
    seq(|picks|, j requires 0 <= j < |picks| => full[picks[j]])
  }

  /** Dropping anchors from an accepted chain is noticed unless only a tail was dropped. */
  lemma SubsequenceAcceptedIffPrefix(c: Crypto, full: seq<AuditAnchor>, keys: KeyTable, picks: seq<nat>)
    requires ChainValid(c, full, keys) && Picks(full, picks)
    ensures ChainValid(c, Picked(full, picks), keys) <==> Picked(full, picks) <= full
  {
    var part := Picked(full, picks);
    if ChainValid(c, part, keys) {
      forall j | 0 <= j < |part|
        ensures picks[j] == j
      {
        assert Continues(c, part, keys, j) && Continues(c, full, keys, picks[j]);
      }
      PicksAreFew(full, picks, |picks|);
      assert forall j | 0 <= j < |part| :: part[j] == full[j];
    } else if part <= full {
      forall j | 0 <= j < |part|
        ensures Continues(c, part, keys, j)
      {
        assert Continues(c, full, keys, j);
      }
    }
  }

  lemma {:induction false} PicksAreFew(full: seq<AuditAnchor>, picks: seq<nat>, n: nat)
    requires Picks(full, picks) && n <= |picks|
    ensures n == 0 || n - 1 <= picks[n - 1]
  {
    if n > 1 {
      PicksAreFew(full, picks, n - 1);
    }
  }

  /** The strings hashed into the anchors of a chain. */
  ghost function AnchorInputs(anchors: seq<AuditAnchor>, n: nat): set<string>
    requires n <= |anchors|
  {
    if n == 0 then {} else AnchorInputs(anchors, n - 1) + {HashInput(PrevHash(anchors, n - 1), anchors[n - 1].proto)}
  }

  /** What the hash chain alone says: numbered from zero, each hash over the one before. */
  predicate HashChained(k: Kernel, anchors: seq<AuditAnchor>) {
    forall i | 0 <= i < |anchors| :: HashLink(k, anchors, i)
  }

  predicate HashLink(k: Kernel, anchors: seq<AuditAnchor>, i: nat)
    requires i < |anchors|
  {
    var a := anchors[i];
    a.proto.seqNo == i && a.anchorHash == AnchorHash(k, PrevHash(anchors, i), a.proto)
  }

  lemma ValidIsHashChained(c: Crypto, anchors: seq<AuditAnchor>, keys: KeyTable)
    requires ChainValid(c, anchors, keys)
    ensures HashChained(c.kernel, anchors)
  {
    forall i | 0 <= i < |anchors|
      ensures HashLink(c.kernel, anchors, i)
    {
      assert Continues(c, anchors, keys, i);
    }
  }

  lemma DigestIsBarFree(s: string)
    requires IsDigest(s)
    ensures BarFree(s)
  {
    assert '|' !in HEX;
  }

  lemma PrevHashIsBarFree(k: Kernel, anchors: seq<AuditAnchor>, n: nat)
    requires Digests(k) && HashChained(k, anchors) && n <= |anchors|
    ensures BarFree(PrevHash(anchors, n))
  {
    if n > 0 {
      assert HashLink(k, anchors, n - 1);
      DigestIsBarFree(anchors[n - 1].anchorHash);
    } else {
      assert BarFree(ANCHOR_GENESIS);
    }
  }

  /** Bars occur in no text field but `free`, the same for all anchors. */
  ghost predicate AllBarFree(anchors: seq<AuditAnchor>, free: TextField) {
    forall i | 0 <= i < |anchors| :: BarsOnlyIn(anchors[i].proto, {free})
  }

  /** The first `n` anchors agree on every field but the signature. */
  predicate SameButSignatures(a: seq<AuditAnchor>, b: seq<AuditAnchor>, n: nat)
    requires n <= |a| && n <= |b|
  {
    forall i | 0 <= i < n :: a[i].proto == b[i].proto && a[i].anchorHash == b[i].anchorHash
  }

  lemma AnchorHashPins(
      k: Kernel, hashed: set<string>, x: string, p: AnchorProto, y: string, q: AnchorProto, free: TextField)
    requires NoCollision(k, hashed) && HashInput(x, p) in hashed && HashInput(y, q) in hashed
    requires BarFree(x) && BarFree(y) && BarsOnlyIn(p, {free}) && BarsOnlyIn(q, {free})
    requires AnchorHash(k, x, p) == AnchorHash(k, y, q)
    ensures x == y && p == q
  {
    assert !Collide(k, HashInput(x, p), HashInput(y, q));
    PayloadInjective(x, p, y, q, free);
  }

  lemma AnchorInputsGrow(anchors: seq<AuditAnchor>, n: nat)
    requires 0 < n <= |anchors|
    ensures AnchorInputs(anchors, n - 1) <= AnchorInputs(anchors, n)
    ensures HashInput(PrevHash(anchors, n - 1), anchors[n - 1].proto) in AnchorInputs(anchors, n)
  {
  }

  /** No head of the chain holds a bar. */
  predicate BarFreeHeads(anchors: seq<AuditAnchor>) {
    forall i | 0 <= i <= |anchors| :: BarFreeHead(anchors, i)
  }

  predicate BarFreeHead(anchors: seq<AuditAnchor>, i: nat) {
    i <= |anchors| && BarFree(PrevHash(anchors, i))
  }

  lemma HeadsAreBarFree(k: Kernel, anchors: seq<AuditAnchor>)
    requires Digests(k) && HashChained(k, anchors)
    ensures BarFreeHeads(anchors)
  {
    forall i | 0 <= i <= |anchors|
      ensures BarFreeHead(anchors, i)
    {
      PrevHashIsBarFree(k, anchors, i);
    }
  }

  /** One step back: equal anchor hashes mean equal payloads on top of equal heads. */
  lemma LastLink(
      k: Kernel, a: seq<AuditAnchor>, b: seq<AuditAnchor>, free: TextField, m: nat, n: nat, hashed: set<string>)
    requires HashChained(k, a) && HashChained(k, b) && BarFreeHeads(a) && BarFreeHeads(b)
    requires AllBarFree(a, free) && AllBarFree(b, free) && NoCollision(k, hashed)
    requires 0 < m <= |a| && 0 < n <= |b| && a[m - 1].anchorHash == b[n - 1].anchorHash
    requires AnchorInputs(a, m) <= hashed && AnchorInputs(b, n) <= hashed
    ensures a[m - 1].proto == b[n - 1].proto && PrevHash(a, m - 1) == PrevHash(b, n - 1) && m == n
  {
    assert HashLink(k, a, m - 1) && HashLink(k, b, n - 1);
    assert BarFreeHead(a, m - 1) && BarFreeHead(b, n - 1);
    AnchorInputsGrow(a, m);
    AnchorInputsGrow(b, n);
    AnchorHashPins(k, hashed, PrevHash(a, m - 1), a[m - 1].proto, PrevHash(b, n - 1), b[n - 1].proto, free);
  }

  lemma {:induction false} LastHashPinsPrefix(
      k: Kernel, a: seq<AuditAnchor>, b: seq<AuditAnchor>, free: TextField, m: nat, n: nat, hashed: set<string>)
    requires HashChained(k, a) && HashChained(k, b) && BarFreeHeads(a) && BarFreeHeads(b)
    requires AllBarFree(a, free) && AllBarFree(b, free) && NoCollision(k, hashed)
    requires 0 < m <= |a| && 0 < n <= |b| && a[m - 1].anchorHash == b[n - 1].anchorHash
    requires AnchorInputs(a, m) <= hashed && AnchorInputs(b, n) <= hashed
    ensures m == n && SameButSignatures(a, b, m)
    decreases m
  {
    LastLink(k, a, b, free, m, n, hashed);
    if m > 1 {
      AnchorInputsGrow(a, m);
      AnchorInputsGrow(b, n);
      LastHashPinsPrefix(k, a, b, free, m - 1, n - 1, hashed);
    }
  }

  /** The strings hashed into the anchors of two chains. */
  ghost function AllInputs(a: seq<AuditAnchor>, b: seq<AuditAnchor>): set<string> {
    AnchorInputs(a, |a|) + AnchorInputs(b, |b|)
  }

  lemma LastHashPinsChain(k: Kernel, a: seq<AuditAnchor>, b: seq<AuditAnchor>, free: TextField)
    requires Digests(k) && HashChained(k, a) && HashChained(k, b) && AllBarFree(a, free) && AllBarFree(b, free)
    requires a != [] && b != [] && a[|a| - 1].anchorHash == b[|b| - 1].anchorHash
    requires NoCollision(k, AllInputs(a, b))
    ensures |a| == |b| && SameButSignatures(a, b, |a|)
  {
    HeadsAreBarFree(k, a);
    HeadsAreBarFree(k, b);
    LastHashPinsPrefix(k, a, b, free, |a|, |b|, AllInputs(a, b));
  }

  /** Two accepted chains ending in the same anchor hash are the same chain, signatures aside, if at most
      one text field, the same throughout, may hold bars. */
  lemma LastAnchorPinsChain(c: Crypto, a: seq<AuditAnchor>, b: seq<AuditAnchor>, keys: KeyTable, free: TextField)
    requires Digests(c.kernel) && ChainValid(c, a, keys) && ChainValid(c, b, keys)
    requires AllBarFree(a, free) && AllBarFree(b, free)
    requires a != [] && b != [] && a[|a| - 1].anchorHash == b[|b| - 1].anchorHash
    requires NoCollision(c.kernel, AllInputs(a, b))
    ensures |a| == |b| && SameButSignatures(a, b, |a|)
  {
    ValidIsHashChained(c, a, keys);
    ValidIsHashChained(c, b, keys);
    LastHashPinsChain(c.kernel, a, b, free);
  }

  // ---------------------------------------------------------------- binding anchors to facts

  /** Every anchor's head is the chain hash of the facts it claims to cover. */
  ghost predicate Bound(k: Kernel, facts: seq<Fact>, anchors: seq<AuditAnchor>) {
    forall i | 0 <= i < |anchors| :: BoundAt(k, facts, anchors[i])
  }

  predicate BoundAt(k: Kernel, facts: seq<Fact>, a: AuditAnchor) {
    a.proto.hi <= |facts| && ChainHash(k, facts[..a.proto.hi]) == Ok(a.proto.chainHead)
  }

  /** Anchor `i` is the first that is not bound, for the reason named. */
  ghost predicate UnboundAt(k: Kernel, facts: seq<Fact>, anchors: seq<AuditAnchor>, i: nat, error: AnchorError) {
    && i < |anchors| && !BoundAt(k, facts, anchors[i]) && (forall j | 0 <= j < i :: BoundAt(k, facts, anchors[j]))
    && var a := anchors[i].proto;
       match error
       case ChainBroken(seqNo, TooFewFacts) => seqNo == a.seqNo && a.hi > |facts|
       case ChainBroken(seqNo, HeadMismatch) => seqNo == a.seqNo && a.hi <= |facts| && ChainHash(k, facts[..a.hi]).Ok?
       case Hash(cause) => a.hi <= |facts| && ChainHash(k, facts[..a.hi]) == Err(cause)
       case _ => false
  }

  method VerifyBinding(k: Kernel, facts: seq<Fact>, anchors: seq<AuditAnchor>) returns (r: Result<nat, AnchorError>)
    ensures r.Ok? <==> Bound(k, facts, anchors)
    ensures r.Ok? ==> r.value == NextLo(anchors, |anchors|)
    ensures r.Err? ==> exists i :: UnboundAt(k, facts, anchors, i, r.error)
  {
    var covered := 0;
    for i := 0 to |anchors|
      invariant covered == NextLo(anchors, i)
      invariant forall j | 0 <= j < i :: BoundAt(k, facts, anchors[j])
    {
      var a := anchors[i];
      if a.proto.hi > |facts| {
        assert UnboundAt(k, facts, anchors, i, ChainBroken(a.proto.seqNo, TooFewFacts));
        return Err(ChainBroken(a.proto.seqNo, TooFewFacts));
      }
      var head := ComputeChainHash(k, facts[..a.proto.hi]);
      if head.Err? {
        assert UnboundAt(k, facts, anchors, i, Hash(head.error));
        return Err(Hash(head.error));
      }
      if head.value != a.proto.chainHead {
        assert UnboundAt(k, facts, anchors, i, ChainBroken(a.proto.seqNo, HeadMismatch));
        return Err(ChainBroken(a.proto.seqNo, HeadMismatch));
      }
      covered := a.proto.hi;
    }
    return Ok(covered);
  }

  // ---------------------------------------------------------------- the builder

  /** The builder's fields as a value. */
  datatype BuilderView = BuilderView(
    seed: string, keyId: string, engineId: string, sessionId: string,
    prevHash: string, nextSeq: nat, nextLo: nat)

  function FreshBuilder(seed: string, keyId: string, engineId: string, sessionId: string): BuilderView {
    BuilderView(seed, keyId, engineId, sessionId, ANCHOR_GENESIS, 0, 0)
  }

  function SealedProto(b: BuilderView, hi: nat, head: string): AnchorProto {
    AnchorProto(b.nextSeq, b.sessionId, b.nextLo, hi, head, b.keyId, b.engineId, 0)
  }

  function Sealed(c: Crypto, b: BuilderView, hi: nat, head: string): AuditAnchor {
    var p := SealedProto(b, hi, head);
    AuditAnchor(p, AnchorHash(c.kernel, b.prevHash, p), c.sign(b.seed, SignaturePayload(p)))
  }

  function AfterSeal(c: Crypto, b: BuilderView, hi: nat, head: string): BuilderView {
    b.(prevHash := Sealed(c, b, hi, head).anchorHash, nextSeq := b.nextSeq + 1, nextLo := hi)
  }

  class AnchorChainBuilder {
    const seed: string
    const keyId: string
    const engineId: string
    const sessionId: string
    var prevAnchorHash: string
    var lastSeq: nat
    var lastFactHi: nat

    function View(): BuilderView
      reads this
    {
      BuilderView(seed, keyId, engineId, sessionId, prevAnchorHash, lastSeq, lastFactHi)
    }

    constructor (seed: string, keyId: string, engineId: string, sessionId: string)
      ensures View() == FreshBuilder(seed, keyId, engineId, sessionId)
    {
      this.seed, this.keyId, this.engineId, this.sessionId := seed, keyId, engineId, sessionId;
      prevAnchorHash, lastSeq, lastFactHi := ANCHOR_GENESIS, 0, 0;
    }

    /** Continue an existing chain: key rotation, or recovery after a restart. */
    constructor WithPrev(seed: string, keyId: string, engineId: string, sessionId: string,
                         prevAnchorHash: string, nextSeq: nat, nextLo: nat)
      ensures View() == BuilderView(seed, keyId, engineId, sessionId, prevAnchorHash, nextSeq, nextLo)
    {
      this.seed, this.keyId, this.engineId, this.sessionId := seed, keyId, engineId, sessionId;
      this.prevAnchorHash, lastSeq, lastFactHi := prevAnchorHash, nextSeq, nextLo;
    }

    method Seal(c: Crypto, factHi: nat, chainHead: string) returns (a: AuditAnchor)
      modifies this
      ensures a == Sealed(c, old(View()), factHi, chainHead)
      ensures View() == AfterSeal(c, old(View()), factHi, chainHead)
    {
      var proto := AnchorProto(lastSeq, sessionId, lastFactHi, factHi, chainHead, keyId, engineId, 0);
      var anchorHash := AnchorHash(c.kernel, prevAnchorHash, proto);
      a := AuditAnchor(proto, anchorHash, c.sign(seed, SignaturePayload(proto)));
      prevAnchorHash := anchorHash;
      lastSeq := lastSeq + 1;
      lastFactHi := factHi;
    }
  }

  // ---------------------------------------------------------------- builder runs

  datatype BuilderStep =
    | Seal(hi: nat, head: string)
    | Rotate(seed: string, keyId: string, engineId: string, sessionId: string)

  datatype Issued = Issued(anchors: seq<AuditAnchor>, builder: BuilderView)

  function StepBuilder(c: Crypto, s: Issued, step: BuilderStep): Issued {
    match step
    case Seal(hi, head) =>
      Issued(s.anchors + [Sealed(c, s.builder, hi, head)], AfterSeal(c, s.builder, hi, head))
    case Rotate(seed, keyId, engineId, sessionId) =>
      Issued(s.anchors, s.builder.(seed := seed, keyId := keyId, engineId := engineId, sessionId := sessionId))
  }

  function RunBuilder(c: Crypto, start: BuilderView, steps: seq<BuilderStep>): Issued {
    if steps == [] then Issued([], start)
    else StepBuilder(c, RunBuilder(c, start, steps[..|steps| - 1]), steps[|steps| - 1])
  }

  /** The key table knows the public key of the builder's signer and of every signer rotated to. */
  ghost predicate KeysMatch(c: Crypto, keys: KeyTable, b: BuilderView) {
    b.keyId in keys && keys[b.keyId] == c.publicKey(b.seed)
  }

  ghost predicate StepKeysMatch(c: Crypto, keys: KeyTable, step: BuilderStep) {
    step.Rotate? ==> step.keyId in keys && keys[step.keyId] == c.publicKey(step.seed)
  }

  /** The builder continues exactly where the chain ends. */
  predicate InStep(b: BuilderView, anchors: seq<AuditAnchor>) {
    && b.prevHash == PrevHash(anchors, |anchors|)
    && b.nextSeq == |anchors|
    && b.nextLo == NextLo(anchors, |anchors|)
  }

  /** Sealing extends a valid chain to a valid chain. */
  lemma SealKeepsChain(c: Crypto, keys: KeyTable, anchors: seq<AuditAnchor>, b: BuilderView, hi: nat, head: string)
    requires SignatureCorrect(c) && KeysMatch(c, keys, b) && ChainValid(c, anchors, keys) && InStep(b, anchors)
    ensures ChainValid(c, anchors + [Sealed(c, b, hi, head)], keys)
    ensures InStep(AfterSeal(c, b, hi, head), anchors + [Sealed(c, b, hi, head)])
  {
    var longer := anchors + [Sealed(c, b, hi, head)];
    forall i | 0 <= i < |longer|
      ensures Continues(c, longer, keys, i)
    {
      if i < |anchors| {
        assert Continues(c, anchors, keys, i);
        assert longer[i] == anchors[i] && (i > 0 ==> longer[i - 1] == anchors[i - 1]);
      } else {
        assert i > 0 ==> longer[i - 1] == anchors[i - 1];
      }
    }
  }

  /** Every run of seals and key rotations, whatever is sealed, is accepted by the chain verifier. */
  lemma {:induction false} RunsAreAccepted(c: Crypto, keys: KeyTable, start: BuilderView, steps: seq<BuilderStep>)
    requires SignatureCorrect(c) && KeysMatch(c, keys, start) && InStep(start, [])
    requires forall i | 0 <= i < |steps| :: StepKeysMatch(c, keys, steps[i])
    ensures var r := RunBuilder(c, start, steps);
            ChainValid(c, r.anchors, keys) && InStep(r.builder, r.anchors) && KeysMatch(c, keys, r.builder)
  {
    if steps != [] {
      var front, last := steps[..|steps| - 1], steps[|steps| - 1];
      RunsAreAccepted(c, keys, start, front);
      var r := RunBuilder(c, start, front);
      assert StepKeysMatch(c, keys, last);
      if last.Seal? {
        SealKeepsChain(c, keys, r.anchors, r.builder, last.hi, last.head);
      }
    }
  }

  /** No seal of the run goes back behind the one before it. */
  predicate Forward(c: Crypto, start: BuilderView, steps: seq<BuilderStep>) {
    forall i | 0 <= i < |steps| && steps[i].Seal? :: RunBuilder(c, start, steps[..i]).builder.nextLo <= steps[i].hi
  }

  lemma OrderedSnoc(anchors: seq<AuditAnchor>, a: AuditAnchor)
    ensures Ordered(anchors + [a]) <==> Ordered(anchors) && a.proto.lo <= a.proto.hi
  {
    var longer := anchors + [a];
    assert longer[|anchors|] == a;
    if Ordered(longer) {
      assert forall i | 0 <= i < |anchors| :: longer[i] == anchors[i];
    }
  }

  lemma ForwardSnoc(c: Crypto, start: BuilderView, front: seq<BuilderStep>, last: BuilderStep)
    ensures Forward(c, start, front + [last]) <==>
            Forward(c, start, front) && (last.Seal? ==> RunBuilder(c, start, front).builder.nextLo <= last.hi)
  {
    var steps := front + [last];
    assert forall i | 0 <= i <= |front| :: steps[..i] == front[..i];
    assert front[..|front|] == front && steps[|front|] == last;
    if Forward(c, start, steps) {
      assert forall i | 0 <= i < |front| :: steps[i] == front[i];
    }
  }

  /** The ranges stay ordered exactly when no seal of the run goes backwards, so the independent
      verifier accepts exactly the runs that respect the documented constraint on `seal`. */
  lemma {:induction false} RunsAreOrderedIffForward(c: Crypto, start: BuilderView, steps: seq<BuilderStep>)
    ensures Ordered(RunBuilder(c, start, steps).anchors) <==> Forward(c, start, steps)
  {
    if steps != [] {
      var front, last := steps[..|steps| - 1], steps[|steps| - 1];
      assert steps == front + [last];
      RunsAreOrderedIffForward(c, start, front);
      ForwardSnoc(c, start, front, last);
      if last.Seal? {
        var before := RunBuilder(c, start, front);
        OrderedSnoc(before.anchors, Sealed(c, before.builder, last.hi, last.head));
      }
    }
  }

  // ---------------------------------------------------------------- what a run issues

  /** Who signs: everything a rotation replaces. */
  datatype Signer = Signer(seed: string, keyId: string, engineId: string, sessionId: string)

  /** The signer of the last rotation among the first `n` steps, or the one the run began with. */
  function SignerAt(start: Signer, steps: seq<BuilderStep>, n: nat): Signer
    requires n <= |steps|
  {
    if n == 0 then start
    else
      match steps[n - 1]
      case Rotate(seed, keyId, engineId, sessionId) => Signer(seed, keyId, engineId, sessionId)
      case Seal(_, _) => SignerAt(start, steps, n - 1)
  }

  /** The upper bound of the last seal among the first `n` steps, or where the run began. */
  function CoveredAt(start: nat, steps: seq<BuilderStep>, n: nat): nat
    requires n <= |steps|
  {
    if n == 0 then start else if steps[n - 1].Seal? then steps[n - 1].hi else CoveredAt(start, steps, n - 1)
  }

  /** The number of seals among the first `n` steps. */
  function SealsBefore(steps: seq<BuilderStep>, n: nat): nat
    requires n <= |steps|
  {
    if n == 0 then 0 else SealsBefore(steps, n - 1) + if steps[n - 1].Seal? then 1 else 0
  }

  /** The anchor names the signer, and its payload is signed with that signer's key. */
  predicate CarriesSigner(c: Crypto, a: AuditAnchor, s: Signer) {
    && a.proto.sessionId == s.sessionId && a.proto.engineId == s.engineId && a.proto.keyId == s.keyId
    && a.signature == c.sign(s.seed, SignaturePayload(a.proto))
  }

  function SignerOf(b: BuilderView): Signer {
    Signer(b.seed, b.keyId, b.engineId, b.sessionId)
  }

  /** The steps `n` on do not matter to what the first `n` say. */
  lemma {:induction false} StepsOfPrefix(s: Signer, lo: nat, front: seq<BuilderStep>, last: BuilderStep, n: nat)
    requires n <= |front|
    ensures SignerAt(s, front + [last], n) == SignerAt(s, front, n)
    ensures CoveredAt(lo, front + [last], n) == CoveredAt(lo, front, n)
    ensures SealsBefore(front + [last], n) == SealsBefore(front, n)
  {
    if n > 0 {
      StepsOfPrefix(s, lo, front, last, n - 1);
      assert (front + [last])[n - 1] == front[n - 1];
    }
  }

  /** The builder of a run holds the signer in force, and where the next anchor is to start. */
  lemma {:induction false} BuilderInForce(c: Crypto, start: BuilderView, steps: seq<BuilderStep>)
    ensures var r := RunBuilder(c, start, steps);
            && SignerOf(r.builder) == SignerAt(SignerOf(start), steps, |steps|)
            && r.builder.nextLo == CoveredAt(start.nextLo, steps, |steps|)
            && |r.anchors| == SealsBefore(steps, |steps|) && r.builder.nextSeq == start.nextSeq + |r.anchors|
  {
    if steps != [] {
      var front, last := steps[..|steps| - 1], steps[|steps| - 1];
      assert steps == front + [last];
      BuilderInForce(c, start, front);
      StepsOfPrefix(SignerOf(start), start.nextLo, front, last, |front|);
    }
  }

  /** What the seal at step `i` issued: the anchor numbered by the seals before it, from where the last of them
      ended, over the height and head sealed, at logical time zero, in the name of the signer in force. */
  predicate Issues(c: Crypto, start: BuilderView, steps: seq<BuilderStep>, i: nat, a: AuditAnchor)
    requires i < |steps| && steps[i].Seal?
  {
    && a.proto.seqNo == start.nextSeq + SealsBefore(steps, i)
    && a.proto.lo == CoveredAt(start.nextLo, steps, i)
    && a.proto.hi == steps[i].hi && a.proto.chainHead == steps[i].head && a.proto.logicalTime == 0
    && CarriesSigner(c, a, SignerAt(SignerOf(start), steps, i))
  }

  /** Every seal of every run of seals and rotations issues its own anchor, and there are no others. */
  lemma {:induction false} EverySealIssues(c: Crypto, start: BuilderView, steps: seq<BuilderStep>, i: nat)
    requires i < |steps| && steps[i].Seal?
    ensures |RunBuilder(c, start, steps).anchors| == SealsBefore(steps, |steps|)
    ensures SealsBefore(steps, i) < |RunBuilder(c, start, steps).anchors|
    ensures Issues(c, start, steps, i, RunBuilder(c, start, steps).anchors[SealsBefore(steps, i)])
    decreases |steps|
  {
    var front, last := steps[..|steps| - 1], steps[|steps| - 1];
    assert steps == front + [last];
    BuilderInForce(c, start, front);
    BuilderInForce(c, start, steps);
    StepsOfPrefix(SignerOf(start), start.nextLo, front, last, i);
    if i < |front| {
      EverySealIssues(c, start, front, i);
      assert front[i] == steps[i];
      var k := SealsBefore(steps, i);
      assert RunBuilder(c, start, steps).anchors[k] == RunBuilder(c, start, front).anchors[k];
    }
  }

  // ---------------------------------------------------------------- the text that is signed and hashed

  lemma JoinCons(x: string, rest: seq<string>)
    requires rest != []
    ensures Join([x] + rest) == x + "|" + Join(rest)
  {
    assert ([x] + rest)[1..] == rest;
  }

  /** The payload behind the head `x`, spelt out in the order of the source's format. */
  function Spelt(x: string, p: AnchorProto): string {
    x + "|" + (p.sessionId + "|" + (Dec(p.seqNo) + "|" + (Dec(p.lo) + "|" + (Dec(p.hi) + "|" + (p.chainHead + "|"
      + (p.keyId + "|" + (p.engineId + "|" + Dec(p.logicalTime))))))))
  }

  /** What is signed is the payload behind the format tag; what is hashed, behind the hash of the anchor before. */
  lemma PayloadText(k: Kernel, prev: string, p: AnchorProto)
    ensures SignaturePayload(p) == Spelt("evorule-anchor/2", p)
    ensures AnchorHash(k, prev, p) == k.blake3(Spelt(prev, p))
  {
    FieldsAreSpelt("evorule-anchor/2", p);
    FieldsAreSpelt(prev, p);
  }

  lemma FieldsAreSpelt(x: string, p: AnchorProto)
    ensures Join(PayloadFields(x, p)) == Spelt(x, p)
  {
    TextOfNine(x, p.sessionId, Dec(p.seqNo), Dec(p.lo), Dec(p.hi), p.chainHead, p.keyId, p.engineId, Dec(p.logicalTime));
  }

  lemma TextOfNine(x: string, a: string, b: string, c: string, d: string, e: string, f: string, g: string, h: string)
    ensures Join([x, a, b, c, d, e, f, g, h])
         == x + "|" + (a + "|" + (b + "|" + (c + "|" + (d + "|" + (e + "|" + (f + "|" + (g + "|" + h)))))))
  {
    TextOfFour(e, f, g, h);
    assert [d] + [e, f, g, h] == [d, e, f, g, h];
    JoinCons(d, [e, f, g, h]);
    assert [c] + [d, e, f, g, h] == [c, d, e, f, g, h];
    JoinCons(c, [d, e, f, g, h]);
    assert [b] + [c, d, e, f, g, h] == [b, c, d, e, f, g, h];
    JoinCons(b, [c, d, e, f, g, h]);
    assert [a] + [b, c, d, e, f, g, h] == [a, b, c, d, e, f, g, h];
    JoinCons(a, [b, c, d, e, f, g, h]);
    assert [x] + [a, b, c, d, e, f, g, h] == [x, a, b, c, d, e, f, g, h];
    JoinCons(x, [a, b, c, d, e, f, g, h]);
  }

  lemma TextOfFour(e: string, f: string, g: string, h: string)
    ensures Join([e, f, g, h]) == e + "|" + (f + "|" + (g + "|" + h))
  {
    assert [g] + [h] == [g, h] && [f] + [g, h] == [f, g, h] && [e] + [f, g, h] == [e, f, g, h];
    JoinCons(g, [h]);
    JoinCons(f, [g, h]);
    JoinCons(e, [f, g, h]);
  }
}
