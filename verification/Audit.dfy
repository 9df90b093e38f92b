/**
 The hash-chained audit sink: FNV-1a 64 over `prev|id|actor|action|outcome|details`,
 printed as sixteen hex digits and fed into the next event's hash.

 Strings are the bytes the source hashes (`input.bytes()`), so every UTF-8 string is covered.
 Machine words are numbers below 2^64; the wrapping multiplication is written out.
 */
module Audit {
  import opened Wrappers

  type byte = b: nat | b < 256
  type Bytes = seq<byte>

  const WORD: nat := 0x1_0000_0000_0000_0000
  type word = h: nat | h < 0x1_0000_0000_0000_0000

  const FNV_OFFSET: word := 14695981039346656037
  const FNV_PRIME: nat := 1099511628211

  const PIPE: byte := 0x7c

  function Repeat(b: byte, n: nat): (r: Bytes)
    ensures |r| == n
  {
    if n == 0 then [] else [b] + Repeat(b, n - 1)
  }

  // "genesis-0000000000000000"
  function Genesis(): (r: Bytes)
    ensures |r| == 24
  {
    [0x67, 0x65, 0x6e, 0x65, 0x73, 0x69, 0x73, 0x2d] + Repeat(0x30, 16)
  }

  lemma {:induction false} RepeatsOnly(b: byte, n: nat, c: byte)
    requires c != b
    ensures c !in Repeat(b, n)
  {
    if n > 0 {
      RepeatsOnly(b, n - 1, c);
    }
  }

  datatype AuditEventKind = Autonomous | Failover | Ingest | Security | Sql | Storage

  datatype AuditEvent = AuditEvent(
    eventId: nat,
    occurredEpochMs: nat,
    actor: Bytes,
    action: Bytes,
    kind: AuditEventKind,
    outcome: Bytes,
    detailsJson: Bytes,
    chainHash: Bytes)

  // ------------------------------------------------------------------------
  // FNV-1a
  // ------------------------------------------------------------------------

  // Bitwise exclusive or.
  function Xor(a: nat, b: nat): nat {
    if a == 0 && b == 0 then 0 else 2 * Xor(a / 2, b / 2) + BitXor(a % 2, b % 2)
  }

  function BitXor(p: nat, q: nat): nat {
    if p == q then 0 else 1
  }

  function Pow(base: nat, k: nat): nat {
    if k == 0 then 1 else base * Pow(base, k - 1)
  }

  lemma {:induction false} XorBounded(a: nat, b: nat, k: nat)
    requires a < Pow(2, k) && b < Pow(2, k)
    ensures Xor(a, b) < Pow(2, k)
  {
    if k > 0 && (a > 0 || b > 0) {
      XorBounded(a / 2, b / 2, k - 1);
    }
  }

  // Exclusive or works on the last bit and on the rest separately.
  lemma XorBits(i: nat, p: nat, j: nat, q: nat)
    requires p < 2 && q < 2
    ensures Xor(2 * i + p, 2 * j + q) == 2 * Xor(i, j) + BitXor(p, q)
  {
    assert (2 * i + p) / 2 == i && (2 * j + q) / 2 == j;
    assert (2 * i + p) % 2 == p && (2 * j + q) % 2 == q;
  }

  lemma {:induction false} XorInvolution(a: nat, b: nat)
    ensures Xor(Xor(a, b), b) == a
    decreases a + b
  {
    if a > 0 || b > 0 {
      XorInvolution(a / 2, b / 2);
      XorBits(a / 2, a % 2, b / 2, b % 2);
      XorBits(Xor(a / 2, b / 2), BitXor(a % 2, b % 2), b / 2, b % 2);
    }
  }

  lemma {:induction false} XorCommutes(a: nat, b: nat)
    ensures Xor(a, b) == Xor(b, a)
    decreases a + b
  {
    if a > 0 || b > 0 {
      XorCommutes(a / 2, b / 2);
    }
  }

  // The bit of a number at place i, counted from the lowest.
  function Bit(a: nat, i: nat): nat {
    if i == 0 then a % 2 else Bit(a / 2, i - 1)
  }

  // A bit of the exclusive or is set where exactly one of the two is.
  lemma {:induction false} XorIsBitwise(a: nat, b: nat, i: nat)
    ensures Bit(Xor(a, b), i) == (Bit(a, i) + Bit(b, i)) % 2
    decreases i
  {
    XorBits(a / 2, a % 2, b / 2, b % 2);
    if i > 0 {
      XorIsBitwise(a / 2, b / 2, i - 1);
    }
  }

  // `hash ^= byte; hash = hash.wrapping_mul(FNV_PRIME)`
  function Mix(h: word, b: byte): word {
    (Xor(h, b) * FNV_PRIME) % WORD
  }

  function Fold(h: word, s: Bytes): word
    decreases |s|
  {
    if s == [] then h else Fold(Mix(h, s[0]), s[1..])
  }

  function Fnv(s: Bytes): word {
    Fold(FNV_OFFSET, s)
  }

  lemma MulAssociates(a: nat, b: nat, c: nat)
    ensures a * (b * c) == (a * b) * c
  {
  }

  lemma {:induction false} PowAdds(base: nat, j: nat, k: nat)
    ensures Pow(base, j + k) == Pow(base, j) * Pow(base, k)
  {
    if j > 0 {
      PowAdds(base, j - 1, k);
      MulAssociates(base, Pow(base, j - 1), Pow(base, k));
    }
  }

  lemma WordIsPower()
    ensures Pow(2, 64) == WORD && Pow(16, 16) == WORD
  {
    assert Pow(2, 2) == 4 && Pow(16, 1) == 16;
    PowAdds(2, 2, 2);
    PowAdds(2, 4, 4);
    PowAdds(2, 8, 8);
    PowAdds(2, 16, 16);
    PowAdds(2, 32, 32);
    PowAdds(16, 1, 1);
    PowAdds(16, 2, 2);
    PowAdds(16, 4, 4);
    PowAdds(16, 8, 8);
  }

  // The prime is odd, so multiplying by it permutes the words:
  // FNV_PRIME * 0xce965057aff6957b is 1 modulo 2^64.
  lemma MultiplyInjective(x: word, y: word)
    requires (x * FNV_PRIME) % WORD == (y * FNV_PRIME) % WORD
    ensures x == y
  {
    var inverse := 0xce965057aff6957b;
    var wraps := (FNV_PRIME * inverse) / WORD;
    assert FNV_PRIME * inverse == 1 + wraps * WORD;
    var p, q := (x * FNV_PRIME) / WORD, (y * FNV_PRIME) / WORD;
    assert (x - y) * FNV_PRIME == (p - q) * WORD;
    assert x - y == WORD * ((p - q) * inverse - (x - y) * wraps);
  }

  lemma MixInjective(h: word, b: byte, h': word, b': byte)
    requires Mix(h, b) == Mix(h', b')
    ensures h == h' <==> b == b'
  {
    WordIsPower();
    XorBounded(h, b, 64);
    XorBounded(h', b', 64);
    MultiplyInjective(Xor(h, b), Xor(h', b'));
    XorInvolution(h, b);
    XorInvolution(h', b');
    XorCommutes(h, b);
    XorCommutes(h', b');
    XorInvolution(b, h);
    XorInvolution(b', h');
  }

  lemma {:induction false} FoldInjective(h: word, h': word, s: Bytes)
    ensures Fold(h, s) == Fold(h', s) <==> h == h'
    decreases |s|
  {
    if s != [] && Fold(h, s) == Fold(h', s) {
      FoldInjective(Mix(h, s[0]), Mix(h', s[0]), s[1..]);
      MixInjective(h, s[0], h', s[0]);
    }
  }

  lemma {:induction false} FoldConcat(h: word, s: Bytes, t: Bytes)
    ensures Fold(h, s + t) == Fold(Fold(h, s), t)
    decreases |s|
  {
    if s == [] {
      assert s + t == t;
    } else {
      assert (s + t)[1..] == s[1..] + t;
      FoldConcat(Mix(h, s[0]), s[1..], t);
    }
  }

  lemma FoldOne(h: word, b: byte)
    ensures Fold(h, [b]) == Mix(h, b)
  {
    assert [b][1..] == [];
  }

  // Each bit of x is set where exactly one of the two has it set.
  ghost predicate IsXor(x: nat, h: nat, b: nat) {
    forall i: nat :: Bit(x, i) == (Bit(h, i) + Bit(b, i)) % 2
  }

  // One round of FNV-1a, with the constants of the standard: first the byte's bits are flipped in, then
  // the product with the prime is taken modulo 2^64.
  ghost predicate IsRound(w: nat, h: nat, b: nat) {
    exists x: nat :: IsXor(x, h, b) && w == (x * 0x100000001b3) % 0x1_0000_0000_0000_0000
  }

  lemma MixIsRound(h: word, b: byte)
    ensures IsRound(Mix(h, b), h, b)
  {
    forall i: nat
      ensures Bit(Xor(h, b), i) == (Bit(h, i) + Bit(b, i)) % 2
    {
      XorIsBitwise(h, b, i);
    }
    assert IsXor(Xor(h, b), h, b);
  }

  // The hash is FNV-1a: it starts at the offset basis, and each further byte is one round.
  lemma FnvIs(s: Bytes, b: byte)
    ensures Fnv([]) == 0xcbf29ce484222325
    ensures IsRound(Fnv(s + [b]), Fnv(s), b)
  {
    FoldConcat(FNV_OFFSET, s, [b]);
    FoldOne(Fnv(s), b);
    MixIsRound(Fnv(s), b);
  }

  // A common ending never hides a difference, and never creates one.
  lemma FnvIgnoresCommonEnding(s: Bytes, t: Bytes, ending: Bytes)
    ensures Fnv(s + ending) == Fnv(t + ending) <==> Fnv(s) == Fnv(t)
  {
    FoldConcat(FNV_OFFSET, s, ending);
    FoldConcat(FNV_OFFSET, t, ending);
    FoldInjective(Fnv(s), Fnv(t), ending);
  }

  // s and t differ at position i and nowhere else.
  ghost predicate DifferAt(s: Bytes, t: Bytes, i: nat) {
    i < |s| == |t| && s[i] != t[i] && s[..i] == t[..i] && s[i + 1..] == t[i + 1..]
  }

  lemma FnvSeesOneByte(s: Bytes, t: Bytes, i: nat)
    requires DifferAt(s, t, i)
    ensures Fnv(s) != Fnv(t)
  {
    assert s == s[..i + 1] + s[i + 1..] && t == t[..i + 1] + t[i + 1..];
    FnvIgnoresCommonEnding(s[..i + 1], t[..i + 1], s[i + 1..]);
    assert s[..i + 1] == s[..i] + [s[i]] && t[..i + 1] == t[..i] + [t[i]];
    var h := Fnv(s[..i]);
    FoldConcat(FNV_OFFSET, s[..i], [s[i]]);
    FoldConcat(FNV_OFFSET, t[..i], [t[i]]);
    assert Fold(h, [s[i]]) == Mix(h, s[i]) && Fold(h, [t[i]]) == Mix(h, t[i]);
    if Mix(h, s[i]) == Mix(h, t[i]) {
      MixInjective(h, s[i], h, t[i]);
    }
  }

  // ------------------------------------------------------------------------
  // Printing
  // ------------------------------------------------------------------------

  function HexDigit(d: nat): byte
    requires d < 16
  {
    if d < 10 then 0x30 + d else 0x57 + d
  }

  // The low k hex digits of h, most significant first.
  function HexDigits(h: nat, k: nat): (r: Bytes)
    ensures |r| == k
  {
    if k == 0 then [] else HexDigits(h / 16, k - 1) + [HexDigit(h % 16)]
  }

  lemma {:induction false} HexHasNoPipe(h: nat, k: nat)
    ensures PIPE !in HexDigits(h, k)
  {
    if k > 0 {
      HexHasNoPipe(h / 16, k - 1);
    }
  }

  // `{hash:016x}`
  function Hex(h: word): Bytes {
    HexDigits(h, 16)
  }

  lemma {:induction false} HexDigitsInjective(h: nat, h': nat, k: nat)
    requires h < Pow(16, k) && h' < Pow(16, k)
    requires HexDigits(h, k) == HexDigits(h', k)
    ensures h == h'
  {
    if k > 0 {
      LastHexDigit(h, k);
      LastHexDigit(h', k);
      HexDigitsInjective(h / 16, h' / 16, k - 1);
    }
  }

  lemma LastHexDigit(h: nat, k: nat)
    requires k > 0
    ensures HexDigits(h, k)[..k - 1] == HexDigits(h / 16, k - 1)
    ensures HexDigits(h, k)[k - 1] == HexDigit(h % 16)
  {
  }

  lemma HexInjective(h: word, h': word)
    ensures Hex(h) == Hex(h') <==> h == h'
  {
    WordIsPower();
    if Hex(h) == Hex(h') {
      HexDigitsInjective(h, h', 16);
    }
  }

  function Decimal(n: nat): Bytes {
    if n < 10 then [0x30 + n] else Decimal(n / 10) + [0x30 + n % 10]
  }

  // The value of a digit character, lower-case letters for ten and up.
  function DigitOf(c: byte): nat {
    if 0x30 <= c <= 0x39 then c - 0x30 else if 0x61 <= c <= 0x7a then c - 0x57 else 36
  }

  ghost predicate IsNumeral(s: Bytes, base: nat) {
    forall i :: 0 <= i < |s| ==> DigitOf(s[i]) < base
  }

  function NumeralValue(s: Bytes, base: nat): nat {
    if s == [] then 0 else base * NumeralValue(s[..|s| - 1], base) + DigitOf(s[|s| - 1])
  }

  lemma {:induction false} HexDigitsValue(h: nat, k: nat)
    requires h < Pow(16, k)
    ensures IsNumeral(HexDigits(h, k), 16) && NumeralValue(HexDigits(h, k), 16) == h
  {
    if k > 0 {
      LastHexDigit(h, k);
      HexDigitsValue(h / 16, k - 1);
    }
  }

  // The hash is printed as the hexadecimal numeral of 16 lower-case digits with its value.
  lemma HexIsNumeral(h: word)
    ensures |Hex(h)| == 16 && IsNumeral(Hex(h), 16) && NumeralValue(Hex(h), 16) == h
  {
    WordIsPower();
    HexDigitsValue(h, 16);
  }

  // The event number is printed as its decimal numeral, without leading zeros.
  lemma {:induction false} DecimalIsNumeral(n: nat)
    ensures var s := Decimal(n);
            s != [] && IsNumeral(s, 10) && NumeralValue(s, 10) == n && (n > 0 ==> DigitOf(s[0]) != 0)
  {
    if n >= 10 {
      DecimalIsNumeral(n / 10);
      var s := Decimal(n);
      assert s[..|s| - 1] == Decimal(n / 10);
    } else {
      assert NumeralValue([], 10) == 0 && Decimal(n)[..0] == [];
    }
  }

  // The seed is the text of the source.
  lemma GenesisText(i: nat)
    requires i < 24
    ensures Genesis()[i] == "genesis-0000000000000000"[i] as nat
  {
    if i >= 8 {
      RepeatAt(0x30, 16, i - 8);
    }
  }

  lemma {:induction false} RepeatAt(b: byte, n: nat, i: nat)
    requires i < n
    ensures Repeat(b, n)[i] == b
  {
    if i > 0 {
      RepeatAt(b, n - 1, i - 1);
    }
  }

  // ------------------------------------------------------------------------
  // The chain
  // ------------------------------------------------------------------------

  datatype Field = Actor | Action | Outcome | Details

  function Get(e: AuditEvent, f: Field): Bytes {
    match f
    case Actor => e.actor
    case Action => e.action
    case Outcome => e.outcome
    case Details => e.detailsJson
  }

  function Put(e: AuditEvent, f: Field, v: Bytes): AuditEvent {
    match f
    case Actor => e.(actor := v)
    case Action => e.(action := v)
    case Outcome => e.(outcome := v)
    case Details => e.(detailsJson := v)
  }

  function JoinPipe(parts: seq<Bytes>): Bytes {
    if |parts| == 0 then [] else
    if |parts| == 1 then parts[0] else parts[0] + [PIPE] + JoinPipe(parts[1..])
  }

  // `{prev_hash}|{event_id}|{actor}|{action}|{outcome}|{details_json}`
  function HashedString(prev: Bytes, e: AuditEvent): Bytes {
    prev + [PIPE] + JoinPipe([Decimal(e.eventId), e.actor, e.action, e.outcome, e.detailsJson])
  }

  function Step(prev: Bytes, e: AuditEvent): Bytes {
    Hex(Fnv(HashedString(prev, e)))
  }

  // The hash that event k of a log is chained to.
  function PrevHash(events: seq<AuditEvent>, k: nat): Bytes
    requires k <= |events|
  {
    if k == 0 then Genesis() else events[k - 1].chainHash
  }

  function HashedAt(events: seq<AuditEvent>, k: nat): Bytes
    requires k < |events|
  {
    HashedString(PrevHash(events, k), events[k])
  }

  predicate LinkOk(events: seq<AuditEvent>, k: nat)
    requires k < |events|
  {
    events[k].chainHash == Step(PrevHash(events, k), events[k])
  }

  ghost predicate Chained(events: seq<AuditEvent>) {
    forall k :: 0 <= k < |events| ==> LinkOk(events, k)
  }

  function Links(events: seq<AuditEvent>): (r: seq<bool>)
    ensures |r| == |events|
  {
    seq(|events|, k requires 0 <= k < |events| => LinkOk(events, k))
  }

  // The first false at or after k, or the length.
  function FirstFalse(oks: seq<bool>, k: nat): (j: nat)
    requires k <= |oks|
    ensures k <= j <= |oks|
    decreases |oks| - k
  {
    if k < |oks| && oks[k] then FirstFalse(oks, k + 1) else k
  }

  lemma {:induction false} FirstFalseIsFirst(oks: seq<bool>, k: nat)
    requires k <= |oks|
    ensures var j := FirstFalse(oks, k);
            (forall i :: k <= i < j ==> oks[i]) && (j < |oks| ==> !oks[j])
    decreases |oks| - k
  {
    if k < |oks| && oks[k] {
      FirstFalseIsFirst(oks, k + 1);
    }
  }

  // What `verify_chain_tamper_point` answers: the id of the event with the first broken link.
  function TamperPoint(events: seq<AuditEvent>): Option<nat> {
    var j := FirstFalse(Links(events), 0);
    if j == |events| then None else Some(events[j].eventId)
  }

  // Verification accepts exactly the intact chains.
  lemma VerifyAcceptsExactlyChains(events: seq<AuditEvent>)
    ensures TamperPoint(events) == None <==> Chained(events)
  {
    FirstFalseIsFirst(Links(events), 0);
    var j := FirstFalse(Links(events), 0);
    if j < |events| {
      assert !LinkOk(events, j);
    } else {
      assert forall k :: 0 <= k < |events| ==> Links(events)[k] == LinkOk(events, k);
    }
  }

  lemma OtherLinksSurvive(events: seq<AuditEvent>, k: nat, e: AuditEvent, j: nat)
    requires k < |events| && e.chainHash == events[k].chainHash
    requires j < |events| && j != k
    ensures LinkOk(events[k := e], j) == LinkOk(events, j)
  {
    assert PrevHash(events[k := e], j) == PrevHash(events, j);
  }

  // Replacing event k of an intact log by anything that keeps the stored hash is reported at k
  // exactly when the two hashed strings have different FNV-1a values, and is invisible otherwise.
  lemma ReplacedEventVerdict(events: seq<AuditEvent>, k: nat, e: AuditEvent)
    requires Chained(events) && k < |events| && e.chainHash == events[k].chainHash
    ensures TamperPoint(events[k := e]) ==
            if Fnv(HashedString(PrevHash(events, k), e)) == Fnv(HashedAt(events, k)) then None
            else Some(e.eventId)
  {
    var log := events[k := e];
    forall j | 0 <= j < |log| && j != k
      ensures LinkOk(log, j)
    {
      OtherLinksSurvive(events, k, e, j);
      assert LinkOk(events, j);
    }
    ReplacedLink(events, k, e);
    FirstFalseIsFirst(Links(log), 0);
    assert forall j :: 0 <= j < |log| && j != k ==> Links(log)[j];
    assert Links(log)[k] == LinkOk(log, k);
  }

  lemma ReplacedLink(events: seq<AuditEvent>, k: nat, e: AuditEvent)
    requires Chained(events) && k < |events| && e.chainHash == events[k].chainHash
    ensures LinkOk(events[k := e], k) <==>
            Fnv(HashedString(PrevHash(events, k), e)) == Fnv(HashedAt(events, k))
  {
    assert LinkOk(events, k);
    assert PrevHash(events[k := e], k) == PrevHash(events, k);
    HexInjective(Fnv(HashedString(PrevHash(events, k), e)), Fnv(HashedAt(events, k)));
  }

  // The hashed bytes up to, and after, a field.
  function Before(prev: Bytes, e: AuditEvent, f: Field): Bytes {
    var head := prev + [PIPE] + Decimal(e.eventId) + [PIPE];
    match f
    case Actor => head
    case Action => head + e.actor + [PIPE]
    case Outcome => head + e.actor + [PIPE] + e.action + [PIPE]
    case Details => head + e.actor + [PIPE] + e.action + [PIPE] + e.outcome + [PIPE]
  }

  function After(e: AuditEvent, f: Field): Bytes {
    match f
    case Actor => [PIPE] + e.action + [PIPE] + e.outcome + [PIPE] + e.detailsJson
    case Action => [PIPE] + e.outcome + [PIPE] + e.detailsJson
    case Outcome => [PIPE] + e.detailsJson
    case Details => []
  }

  lemma HashedStringAroundField(prev: Bytes, e: AuditEvent, f: Field, v: Bytes)
    ensures HashedString(prev, Put(e, f, v)) == Before(prev, e, f) + v + After(e, f)
  {
    var d := Put(e, f, v);
    HashedStringExpanded(prev, d);
    var head, tail := Before(prev, e, f), After(e, f);
    assert head + v + tail == Before(prev, d, Actor) + d.actor + After(d, Actor);
  }

  lemma JoinPipeHead(a: Bytes, rest: seq<Bytes>)
    requires rest != []
    ensures JoinPipe([a] + rest) == a + [PIPE] + JoinPipe(rest)
  {
    assert ([a] + rest)[1..] == rest;
  }

  lemma JoinFive(a: Bytes, b: Bytes, c: Bytes, d: Bytes, e: Bytes)
    ensures JoinPipe([a, b, c, d, e]) == a + [PIPE] + (b + [PIPE] + (c + [PIPE] + (d + [PIPE] + e)))
  {
    JoinPipeHead(d, [e]);
    JoinPipeHead(c, [d] + [e]);
    JoinPipeHead(b, [c] + ([d] + [e]));
    JoinPipeHead(a, [b] + ([c] + ([d] + [e])));
    assert [a, b, c, d, e] == [a] + ([b] + ([c] + ([d] + [e])));
  }

  lemma HashedStringExpanded(prev: Bytes, e: AuditEvent)
    ensures HashedString(prev, e) == Before(prev, e, Actor) + e.actor + After(e, Actor)
  {
    JoinFive(Decimal(e.eventId), e.actor, e.action, e.outcome, e.detailsJson);
    var tail := [PIPE] + (e.action + [PIPE] + (e.outcome + [PIPE] + e.detailsJson));
    assert After(e, Actor) == tail;
    assert prev + [PIPE] + (Decimal(e.eventId) + [PIPE] + (e.actor + tail)) ==
           Before(prev, e, Actor) + e.actor + tail;
    assert e.actor + tail == e.actor + [PIPE] + (e.action + [PIPE] + (e.outcome + [PIPE] + e.detailsJson));
  }

  // What is hashed, written out.
  lemma HashedStringIs(prev: Bytes, e: AuditEvent)
    ensures HashedString(prev, e) ==
            prev + [PIPE] + Decimal(e.eventId) + [PIPE] + e.actor + [PIPE] + e.action + [PIPE] + e.outcome + [PIPE] +
            e.detailsJson
  {
    HashedStringExpanded(prev, e);
    var head := prev + [PIPE] + Decimal(e.eventId) + [PIPE] + e.actor;
    assert head + ([PIPE] + e.action + [PIPE] + e.outcome + [PIPE] + e.detailsJson) ==
           head + [PIPE] + e.action + [PIPE] + e.outcome + [PIPE] + e.detailsJson;
  }

  // Rewriting one field to any other contents.
  lemma RewrittenFieldVerdict(events: seq<AuditEvent>, k: nat, f: Field, v: Bytes)
    requires Chained(events) && k < |events|
    ensures var head := Before(PrevHash(events, k), events[k], f);
            TamperPoint(events[k := Put(events[k], f, v)]) ==
            if Fnv(head + v) == Fnv(head + Get(events[k], f)) then None else Some(events[k].eventId)
  {
    var prev, e := PrevHash(events, k), events[k];
    HashedStringAroundField(prev, e, f, v);
    HashedStringAroundField(prev, e, f, Get(e, f));
    assert Put(e, f, Get(e, f)) == e;
    FnvIgnoresCommonEnding(Before(prev, e, f) + v, Before(prev, e, f) + Get(e, f), After(e, f));
    ReplacedEventVerdict(events, k, Put(e, f, v));
  }

  // Tampering with a single byte of a hashed field is always caught, at that event.
  lemma OneByteTamperingIsCaught(events: seq<AuditEvent>, k: nat, f: Field, v: Bytes, i: nat)
    requires Chained(events) && k < |events|
    requires DifferAt(v, Get(events[k], f), i)
    ensures TamperPoint(events[k := Put(events[k], f, v)]) == Some(events[k].eventId)
  {
    var head, was := Before(PrevHash(events, k), events[k], f), Get(events[k], f);
    assert (head + v)[..|head| + i] == head + v[..i];
    assert (head + was)[..|head| + i] == head + was[..i];
    assert (head + v)[|head| + i + 1..] == v[i + 1..];
    assert (head + was)[|head| + i + 1..] == was[i + 1..];
    FnvSeesOneByte(head + v, head + was, |head| + i);
    RewrittenFieldVerdict(events, k, f, v);
  }

  // Cutting the end off an intact log leaves an intact log.
  lemma TruncationIsInvisible(events: seq<AuditEvent>, k: nat)
    requires Chained(events) && k <= |events|
    ensures TamperPoint(events[..k]) == None
  {
    forall j | 0 <= j < k
      ensures LinkOk(events[..k], j)
    {
      assert LinkOk(events, j) && PrevHash(events[..k], j) == PrevHash(events, j);
    }
    VerifyAcceptsExactlyChains(events[..k]);
  }

  function Without(events: seq<AuditEvent>, k: nat): seq<AuditEvent>
    requires k < |events|
  {
    events[..k] + events[k + 1..]
  }

  lemma LinksWithout(events: seq<AuditEvent>, k: nat, j: nat)
    requires Chained(events) && k < |events| && j < |events| - 1 && j != k
    ensures LinkOk(Without(events, k), j)
  {
    var log := Without(events, k);
    if j < k {
      assert LinkOk(events, j) && log[j] == events[j] && PrevHash(log, j) == PrevHash(events, j);
    } else {
      assert LinkOk(events, j + 1) && log[j] == events[j + 1] && PrevHash(log, j) == PrevHash(events, j + 1);
    }
  }

  lemma LinkOverGap(events: seq<AuditEvent>, k: nat)
    requires Chained(events) && k + 1 < |events|
    ensures LinkOk(Without(events, k), k) <==> Fnv(PrevHash(events, k)) == Fnv(events[k].chainHash)
  {
    var log, e := Without(events, k), events[k + 1];
    assert log[k] == e && PrevHash(log, k) == PrevHash(events, k) && LinkOk(events, k + 1);
    var prev, next := PrevHash(events, k), events[k].chainHash;
    var ending := [PIPE] + JoinPipe([Decimal(e.eventId), e.actor, e.action, e.outcome, e.detailsJson]);
    assert HashedString(prev, e) == prev + ending && HashedString(next, e) == next + ending;
    FnvIgnoresCommonEnding(prev, next, ending);
    HexInjective(Fnv(HashedString(prev, e)), Fnv(HashedString(next, e)));
  }

  // Removing an event other than the last is reported at the event after it if and only if the two
  // hashes around the gap have different FNV-1a values; otherwise it is invisible.
  lemma RemovedEventVerdict(events: seq<AuditEvent>, k: nat)
    requires Chained(events) && k + 1 < |events|
    ensures TamperPoint(Without(events, k)) ==
            if Fnv(PrevHash(events, k)) == Fnv(events[k].chainHash) then None else Some(events[k + 1].eventId)
  {
    var log := Without(events, k);
    forall j | 0 <= j < |log| && j != k
      ensures LinkOk(log, j)
    {
      LinksWithout(events, k, j);
    }
    LinkOverGap(events, k);
    FirstFalseIsFirst(Links(log), 0);
    assert forall j :: 0 <= j < |log| && j != k ==> Links(log)[j];
    assert Links(log)[k] == LinkOk(log, k);
  }

  // "Mutating any field breaks the chain" is false: neither the kind nor the timestamp is hashed,
  // and text may move across an unescaped `|`.
  lemma UncoveredFieldsAreInvisible(events: seq<AuditEvent>, k: nat, kind: AuditEventKind, at: nat)
    requires Chained(events) && k < |events|
    ensures TamperPoint(events[k := events[k].(kind := kind, occurredEpochMs := at)]) == None
  {
    ReplacedEventVerdict(events, k, events[k].(kind := kind, occurredEpochMs := at));
  }

  lemma ShiftedBoundaryIsInvisible(events: seq<AuditEvent>, k: nat, a: Bytes, b: Bytes, c: Bytes)
    requires Chained(events) && k < |events|
    requires events[k].actor == a + [PIPE] + b && events[k].action == c
    ensures var e := events[k].(actor := a, action := b + [PIPE] + c);
            e != events[k] && TamperPoint(events[k := e]) == None
  {
    var e := events[k].(actor := a, action := b + [PIPE] + c);
    assert |e.actor| != |events[k].actor|;
    SameHashedString(PrevHash(events, k), events[k], a, b, c);
    ReplacedEventVerdict(events, k, e);
  }

  lemma SameHashedString(prev: Bytes, e: AuditEvent, a: Bytes, b: Bytes, c: Bytes)
    requires e.actor == a + [PIPE] + b && e.action == c
    ensures HashedString(prev, e.(actor := a, action := b + [PIPE] + c)) == HashedString(prev, e)
  {
    var d := e.(actor := a, action := b + [PIPE] + c);
    HashedStringExpanded(prev, e);
    HashedStringExpanded(prev, d);
    var tail := [PIPE] + e.outcome + [PIPE] + e.detailsJson;
    assert After(e, Actor) == [PIPE] + e.action + tail && After(d, Actor) == [PIPE] + d.action + tail;
    assert e.actor + ([PIPE] + e.action + tail) == (e.actor + [PIPE] + e.action) + tail;
    assert d.actor + ([PIPE] + d.action + tail) == (d.actor + [PIPE] + d.action) + tail;
    assert e.actor + [PIPE] + e.action == a + [PIPE] + (b + [PIPE] + c);
  }

  // ------------------------------------------------------------------------
  // Collision extraction
  // ------------------------------------------------------------------------

  lemma PrevHashHasNoPipe(events: seq<AuditEvent>, k: nat)
    requires Chained(events) && k <= |events|
    ensures PIPE !in PrevHash(events, k)
    ensures |PrevHash(events, k)| == if k == 0 then 24 else 16
  {
    RepeatsOnly(0x30, 16, PIPE);
    if k > 0 {
      assert LinkOk(events, k - 1);
      HexHasNoPipe(Fnv(HashedAt(events, k - 1)), 16);
    }
  }

  lemma PrefixBeforePipeUnique(a: Bytes, s: Bytes, b: Bytes, t: Bytes)
    requires PIPE !in a && PIPE !in b
    requires a + [PIPE] + s == b + [PIPE] + t
    ensures a == b
  {
    var u := a + [PIPE] + s;
    assert u[|a|] == PIPE && u[|b|] == PIPE;
    assert forall i :: 0 <= i < |a| ==> u[i] == a[i];
    assert forall i :: 0 <= i < |b| ==> u[i] == b[i];
    assert |a| == |b|;
  }

  ghost predicate CollideAt(p: seq<AuditEvent>, i: nat, q: seq<AuditEvent>, j: nat) {
    i < |p| && j < |q| &&
    HashedAt(p, i) != HashedAt(q, j) && Fnv(HashedAt(p, i)) == Fnv(HashedAt(q, j))
  }

  // Equal hashes without a collision come from equal strings.
  lemma SameStringBefore(p: seq<AuditEvent>, m: nat, q: seq<AuditEvent>, n: nat)
    requires Chained(p) && Chained(q) && m < |p| && n < |q|
    requires p[m].chainHash == q[n].chainHash && !CollideAt(p, m, q, n)
    ensures HashedAt(p, m) == HashedAt(q, n) && PrevHash(p, m) == PrevHash(q, n)
  {
    assert LinkOk(p, m) && LinkOk(q, n);
    HexInjective(Fnv(HashedAt(p, m)), Fnv(HashedAt(q, n)));
    PreviousHashesAgree(p, m, q, n);
  }

  lemma {:induction false} SameHashBackwards(p: seq<AuditEvent>, m: nat, q: seq<AuditEvent>, n: nat)
    requires Chained(p) && Chained(q) && m <= |p| && n <= |q|
    requires PrevHash(p, m) == PrevHash(q, n)
    requires forall i: nat, j: nat :: i < m && m - i == n - j ==> !CollideAt(p, i, q, j)
    ensures m == n && forall k :: 0 <= k < m ==> HashedAt(p, k) == HashedAt(q, k)
  {
    PrevHashHasNoPipe(p, m);
    PrevHashHasNoPipe(q, n);
    if m > 0 {
      SameStringBefore(p, m - 1, q, n - 1);
      SameHashBackwards(p, m - 1, q, n - 1);
    }
  }

  // Two intact logs ending in the same hash hashed the very same strings, unless a pair of
  // strings they hashed at the same distance from the end is an FNV-1a collision.
  lemma SameFinalHash(p: seq<AuditEvent>, q: seq<AuditEvent>)
    requires Chained(p) && Chained(q)
    requires PrevHash(p, |p|) == PrevHash(q, |q|)
    ensures || (|p| == |q| && forall k :: 0 <= k < |p| ==> HashedAt(p, k) == HashedAt(q, k))
            || exists i: nat, j: nat :: |p| - i == |q| - j && CollideAt(p, i, q, j)
  {
    if forall i: nat, j: nat :: i < |p| && |p| - i == |q| - j ==> !CollideAt(p, i, q, j) {
      SameHashBackwards(p, |p|, q, |q|);
    }
  }

  lemma PreviousHashesAgree(p: seq<AuditEvent>, m: nat, q: seq<AuditEvent>, n: nat)
    requires Chained(p) && Chained(q) && m < |p| && n < |q|
    requires HashedAt(p, m) == HashedAt(q, n)
    ensures PrevHash(p, m) == PrevHash(q, n)
  {
    PrevHashHasNoPipe(p, m);
    PrevHashHasNoPipe(q, n);
    HashedStringStartsWithPrev(PrevHash(p, m), p[m], PrevHash(q, n), q[n]);
  }

  lemma HashedStringStartsWithPrev(a: Bytes, d: AuditEvent, b: Bytes, e: AuditEvent)
    requires PIPE !in a && PIPE !in b
    requires HashedString(a, d) == HashedString(b, e)
    ensures a == b
  {
    var s := JoinPipe([Decimal(d.eventId), d.actor, d.action, d.outcome, d.detailsJson]);
    var t := JoinPipe([Decimal(e.eventId), e.actor, e.action, e.outcome, e.detailsJson]);
    PrefixBeforePipeUnique(a, s, b, t);
  }

  // ------------------------------------------------------------------------
  // What the hashed string determines
  // ------------------------------------------------------------------------

  ghost predicate PipeFree(e: AuditEvent) {
    PIPE !in e.actor && PIPE !in e.action && PIPE !in e.outcome
  }

  // Equal in everything that is hashed.
  ghost predicate SameHashedFields(d: AuditEvent, e: AuditEvent) {
    d.eventId == e.eventId && d.actor == e.actor && d.action == e.action && d.outcome == e.outcome &&
    d.detailsJson == e.detailsJson
  }

  lemma {:induction false} DecimalHasNoPipe(n: nat)
    ensures Decimal(n) != [] && PIPE !in Decimal(n)
  {
    if n >= 10 {
      DecimalHasNoPipe(n / 10);
    }
  }

  lemma {:induction false} DecimalInjective(m: nat, n: nat)
    requires Decimal(m) == Decimal(n)
    ensures m == n
  {
    DecimalHasNoPipe(m / 10);
    DecimalHasNoPipe(n / 10);
    var d := Decimal(m);
    assert m >= 10 ==> d[..|d| - 1] == Decimal(m / 10);
    assert n >= 10 ==> d[..|d| - 1] == Decimal(n / 10);
    assert d[|d| - 1] == 0x30 + m % 10 == 0x30 + n % 10;
    if m >= 10 && n >= 10 {
      DecimalInjective(m / 10, n / 10);
    }
  }

  // What stands before the first separator, and what after it.
  lemma SplitAtPipe(a: Bytes, s: Bytes, b: Bytes, t: Bytes)
    requires PIPE !in a && PIPE !in b
    requires a + [PIPE] + s == b + [PIPE] + t
    ensures a == b && s == t
  {
    PrefixBeforePipeUnique(a, s, b, t);
    assert s == (a + [PIPE] + s)[|a| + 1..] && t == (b + [PIPE] + t)[|b| + 1..];
  }

  // Without separators in actor, action and outcome, the hashed string determines the previous hash
  // and every hashed field. Text cannot move across a boundary then.
  lemma HashedStringDetermines(a: Bytes, d: AuditEvent, b: Bytes, e: AuditEvent)
    requires PIPE !in a && PIPE !in b && PipeFree(d) && PipeFree(e)
    requires HashedString(a, d) == HashedString(b, e)
    ensures a == b && SameHashedFields(d, e)
  {
    JoinFive(Decimal(d.eventId), d.actor, d.action, d.outcome, d.detailsJson);
    JoinFive(Decimal(e.eventId), e.actor, e.action, e.outcome, e.detailsJson);
    var d3, e3 := d.outcome + [PIPE] + d.detailsJson, e.outcome + [PIPE] + e.detailsJson;
    var d2, e2 := d.action + [PIPE] + d3, e.action + [PIPE] + e3;
    var d1, e1 := d.actor + [PIPE] + d2, e.actor + [PIPE] + e2;
    var d0, e0 := Decimal(d.eventId) + [PIPE] + d1, Decimal(e.eventId) + [PIPE] + e1;
    SplitAtPipe(a, d0, b, e0);
    DecimalHasNoPipe(d.eventId);
    DecimalHasNoPipe(e.eventId);
    SplitAtPipe(Decimal(d.eventId), d1, Decimal(e.eventId), e1);
    DecimalInjective(d.eventId, e.eventId);
    SplitAtPipe(d.actor, d2, e.actor, e2);
    SplitAtPipe(d.action, d3, e.action, e3);
    SplitAtPipe(d.outcome, d.detailsJson, e.outcome, e.detailsJson);
  }

  // Two intact logs without separators in those fields that end in the same hash hold the same
  // events, up to kinds and timestamps, unless an FNV-1a collision sits in them.
  lemma SameFinalHashSameLog(p: seq<AuditEvent>, q: seq<AuditEvent>)
    requires Chained(p) && Chained(q) && PrevHash(p, |p|) == PrevHash(q, |q|)
    requires (forall k :: 0 <= k < |p| ==> PipeFree(p[k])) && (forall k :: 0 <= k < |q| ==> PipeFree(q[k]))
    ensures || (|p| == |q| && forall k :: 0 <= k < |p| ==> SameHashedFields(p[k], q[k]))
            || exists i: nat, j: nat :: |p| - i == |q| - j && CollideAt(p, i, q, j)
  {
    SameFinalHash(p, q);
    if |p| == |q| && forall k :: 0 <= k < |p| ==> HashedAt(p, k) == HashedAt(q, k) {
      forall k | 0 <= k < |p|
        ensures SameHashedFields(p[k], q[k])
      {
        PrevHashHasNoPipe(p, k);
        PrevHashHasNoPipe(q, k);
        assert HashedAt(p, k) == HashedAt(q, k);
        HashedStringDetermines(PrevHash(p, k), p[k], PrevHash(q, k), q[k]);
      }
    }
  }

  // ------------------------------------------------------------------------
  // The sink
  // ------------------------------------------------------------------------

  // FNV-1a chain step: the loop of `chain_step`.
  method ChainStep(prev: Bytes, e: AuditEvent) returns (r: Bytes)
    ensures r == Step(prev, e)
  {
    var input := HashedString(prev, e);
    var hash: word := FNV_OFFSET;
    var i := 0;
    while i < |input|
      invariant i <= |input|
      invariant Fold(hash, input[i..]) == Fnv(input)
    {
      hash := Mix(hash, input[i]);
      i := i + 1;
    }
    r := Hex(hash);
  }

  method CheckLink(events: seq<AuditEvent>, k: nat, expected: Bytes) returns (computed: Bytes)
    requires k < |events| && expected == PrevHash(events, k)
    ensures Links(events)[k] <==> computed == events[k].chainHash
  {
    computed := ChainStep(expected, events[k]);
    assert Links(events)[k] == LinkOk(events, k);
  }

  method VerifyChainTamperPoint(events: seq<AuditEvent>) returns (r: Option<nat>)
    ensures r == TamperPoint(events)
  {
    ghost var oks := Links(events);
    var expected := Genesis();
    var i := 0;
    while i < |events|
      invariant i <= |events| && expected == PrevHash(events, i)
      invariant FirstFalse(oks, i) == FirstFalse(oks, 0)
    {
      var computed := CheckLink(events, i, expected);
      if computed != events[i].chainHash {
        return Some(events[i].eventId);
      }
      expected := computed;
      i := i + 1;
    }
    r := None;
  }

  class AppendOnlyAuditSink {
    var nextEventId: nat
    var events: seq<AuditEvent>
    var prevChainHash: Bytes

    ghost predicate Valid()
      reads this
    {
      Chained(events) &&
      nextEventId == |events| + 1 &&
      prevChainHash == PrevHash(events, |events|) &&
      forall k :: 0 <= k < |events| ==> events[k].eventId == k + 1
    }

    constructor ()
      ensures Valid() && events == []
    {
      nextEventId := 1;
      events := [];
      prevChainHash := Genesis();
    }

    // The clock reading is the parameter `now`.
    method Append(kind: AuditEventKind, actor: Bytes, action: Bytes, outcome: Bytes,
                  detailsJson: Bytes, now: nat)
      returns (event: AuditEvent)
      requires Valid()
      modifies this
      ensures Valid()
      ensures events == old(events) + [event]
      ensures event == AuditEvent(|old(events)| + 1, now, actor, action, kind, outcome, detailsJson,
                                  event.chainHash)
    {
      event := AuditEvent(nextEventId, now, actor, action, kind, outcome, detailsJson, []);
      var chainHash := ChainStep(prevChainHash, event);
      event := event.(chainHash := chainHash);
      assert HashedString(prevChainHash, event) == HashedString(prevChainHash, event.(chainHash := []));
      ghost var was := events;
      prevChainHash := chainHash;
      nextEventId := nextEventId + 1;
      events := events + [event];
      forall k | 0 <= k < |events|
        ensures LinkOk(events, k)
      {
        assert PrevHash(events, k) == PrevHash(was, k);
        if k < |was| {
          assert LinkOk(was, k);
        }
      }
    }
  }
}
