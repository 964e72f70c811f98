/** Who published: the principal of a request, the two binders that tie a claim
    to it, and the compact text a policy is keyed by. */
module Identity {
  import opened Wire

  datatype Principal = Principal(clientId: Option<string>, issuer: Option<string>, subject: Option<string>)

  predicate Presented(part: Option<string>) {
    part.Some? && part.value != ""
  }

  predicate IsEmpty(p: Principal) {
    !Presented(p.clientId) && !Presented(p.issuer) && !Presented(p.subject)
  }

  // ---- JSON text (RFC 8259, section 7), ASCII only ----

  function HexChar(n: nat): char
    requires n < 16
  {
    if n < 10 then ('0' as int + n) as char else ('a' as int + n - 10) as char
  }

  function HexDigit(c: char): (r: Option<nat>)
    ensures r.Some? ==> r.value < 16
  {
    if '0' <= c <= '9' then Some(c as int - '0' as int)
    else if 'a' <= c <= 'f' then Some(c as int - 'a' as int + 10)
    else if 'A' <= c <= 'F' then Some(c as int - 'A' as int + 10)
    else None
  }

  /** The number that two hexadecimal digits write. */
  function ReadByte(a: char, b: char): (r: Option<nat>)
    ensures r.Some? ==> r.value < 0x100
  {
    match (HexDigit(a), HexDigit(b))
    case (Some(x), Some(y)) => Some(x * 16 + y)
    case _ => None
  }

  function WriteByte(n: nat): (s: string)
    requires n < 0x100
    ensures |s| == 2 && ReadByte(s[0], s[1]) == Some(n)
  {
    [HexChar(n / 16), HexChar(n % 16)]
  }

  function Hex4(n: nat): (s: string)
    requires n < 0x10000
    ensures |s| == 4
  {
    WriteByte(n / 0x100) + WriteByte(n % 0x100)
  }

  /** The code unit after a backslash and a `u`. */
  function CodeUnit(s: string): (r: Option<nat>)
    ensures r.Some? ==> r.value < 0x10000 && |s| >= 6
  {
    if |s| < 6 || s[0] != '\\' || s[1] != 'u' then None
    else
      match (ReadByte(s[2], s[3]), ReadByte(s[4], s[5]))
      case (Some(high), Some(low)) => Some(high * 0x100 + low)
      case _ => None
  }

  function Unit(n: nat): string
    requires n < 0x10000
  {
    "\\u" + Hex4(n)
  }

  predicate Plain(c: char) {
    ' ' <= c <= '~' && c != '"' && c != '\\'
  }

  /** The letter of a two-character escape, for the characters that have one. */
  function Short(c: char): Option<char> {
    if c == '"' then Some('"')
    else if c == '\\' then Some('\\')
    else if c == '\n' then Some('n')
    else if c == '\r' then Some('r')
    else if c == '\t' then Some('t')
    else if c as int == 8 then Some('b')
    else if c as int == 12 then Some('f')
    else None
  }

  /** How one character is written: itself, a short escape, one code unit, or a
      surrogate pair. */
  function Escape(c: char): string {
    if Plain(c) then [c]
    else if Short(c).Some? then ['\\', Short(c).value]
    else if c as int < 0x10000 then Unit(c as int)
    else Unit(HighHalf(c)) + Unit(LowHalf(c))
  }

  function HighHalf(c: char): nat
    requires c as int >= 0x10000
  {
    0xd800 + (c as int - 0x10000) / 0x400
  }

  function LowHalf(c: char): nat
    requires c as int >= 0x10000
  {
    0xdc00 + (c as int - 0x10000) % 0x400
  }

  function EscapeAll(t: string): string {
    if t == "" then "" else Escape(t[0]) + EscapeAll(t[1..])
  }

  function Unshort(letter: char): Option<char> {
    if letter == '"' then Some('"')
    else if letter == '\\' then Some('\\')
    else if letter == '/' then Some('/')
    else if letter == 'n' then Some('\n')
    else if letter == 'r' then Some('\r')
    else if letter == 't' then Some('\t')
    else if letter == 'b' then Some(8 as char)
    else if letter == 'f' then Some(12 as char)
    else None
  }

  datatype One = One(c: char, length: nat)

  /** Reads one character of a string body. A lone surrogate is not a character. */
  function ReadOne(s: string): (r: Option<One>)
    ensures r.Some? ==> 0 < r.value.length <= |s|
  {
    if s == "" then None
    else if s[0] != '\\' then (if ' ' <= s[0] && s[0] != '"' then Some(One(s[0], 1)) else None)
    else if |s| >= 2 && Unshort(s[1]).Some? then Some(One(Unshort(s[1]).value, 2))
    else ReadUnits(s)
  }

  /** Reads one code unit, or a surrogate pair. */
  function ReadUnits(s: string): (r: Option<One>)
    ensures r.Some? ==> 0 < r.value.length <= |s|
  {
    match CodeUnit(s)
    case None => None
    case Some(high) =>
      if 0xd800 <= high < 0xdc00 then
        match CodeUnit(s[6..])
        case Some(low) => if 0xdc00 <= low < 0xe000 then Some(One(FromPair(high, low), 12)) else None
        case None => None
      else if 0xdc00 <= high < 0xe000 then None
      else Some(One(high as char, 6))
  }

  function FromPair(high: nat, low: nat): char
    requires 0xd800 <= high < 0xdc00 <= low < 0xe000
  {
    (0x10000 + (high - 0xd800) * 0x400 + (low - 0xdc00)) as char
  }

  datatype Cut = Cut(text: string, rest: string)

  /** Reads a string body up to and including the closing quote. */
  function ReadBody(s: string): Option<Cut>
    decreases |s|
  {
    if s == "" then None
    else if s[0] == '"' then Some(Cut("", s[1..]))
    else
      match ReadOne(s)
      case None => None
      case Some(one) =>
        match ReadBody(s[one.length..])
        case None => None
        case Some(cut) => Some(Cut([one.c] + cut.text, cut.rest))
  }

  function WritePart(part: Option<string>): string {
    match part
    case None => "null"
    case Some(t) => "\"" + EscapeAll(t) + "\""
  }

  function WriteThen(part: Option<string>, separator: char, rest: string): string {
    WritePart(part) + ([separator] + rest)
  }

  datatype PartCut = PartCut(part: Option<string>, rest: string)

  function ReadPart(s: string): Option<PartCut> {
    if |s| >= 4 && s[..4] == "null" then Some(PartCut(None, s[4..]))
    else if s != "" && s[0] == '"' then
      match ReadBody(s[1..])
      case None => None
      case Some(cut) => Some(PartCut(Some(cut.text), cut.rest))
    else None
  }

  /** `compact`: a three-element array without spaces. */
  function Compact(p: Principal): string {
    "[" + WriteThen(p.clientId, ',', WriteThen(p.issuer, ',', WriteThen(p.subject, ']', "")))
  }

  /** One part, then the separator that must follow it. */
  function ReadThen(s: string, separator: char): Option<PartCut> {
    match ReadPart(s)
    case None => None
    case Some(cut) =>
      if cut.rest != "" && cut.rest[0] == separator then Some(PartCut(cut.part, cut.rest[1..])) else None
  }

  /** `from_compact`, on the texts `compact` can produce; any other text reads as
      `None` here. */
  function FromCompact(s: string): Option<Principal> {
    if s == "" || s[0] != '[' then None
    else
      match ReadThen(s[1..], ',')
      case None => None
      case Some(a) =>
        match ReadThen(a.rest, ',')
        case None => None
        case Some(b) =>
          match ReadThen(b.rest, ']')
          case None => None
          case Some(c) => if c.rest == "" then Some(Principal(a.part, b.part, c.part)) else None
  }

  lemma UnitReads(n: nat, rest: string)
    requires n < 0x10000
    ensures CodeUnit(Unit(n) + rest) == Some(n)
  {
    var s := Unit(n) + rest;
    var high, low := WriteByte(n / 0x100), WriteByte(n % 0x100);
    assert s[2] == high[0] && s[3] == high[1] && s[4] == low[0] && s[5] == low[1];
  }

  lemma PairReads(c: char, rest: string)
    requires c as int >= 0x10000
    ensures ReadUnits(Unit(HighHalf(c)) + (Unit(LowHalf(c)) + rest)) == Some(One(c, 12))
  {
    var tail := Unit(LowHalf(c)) + rest;
    var s := Unit(HighHalf(c)) + tail;
    UnitReads(HighHalf(c), tail);
    UnitReads(LowHalf(c), rest);
    assert s[6..] == tail;
  }

  lemma ShortReads(c: char)
    requires Short(c).Some?
    ensures Unshort(Short(c).value) == Some(c)
  {
  }

  /** A text that starts with a code unit is read as code units. */
  lemma UnitFirst(n: nat, rest: string)
    requires n < 0x10000
    ensures ReadOne(Unit(n) + rest) == ReadUnits(Unit(n) + rest)
  {
    var s := Unit(n) + rest;
    assert s[0] == '\\' && s[1] == 'u';
    assert Unshort('u') == None;
  }

  lemma WideReads(c: char, rest: string)
    requires !Plain(c) && Short(c).None?
    ensures ReadOne(Escape(c) + rest) == Some(One(c, |Escape(c)|))
  {
    if c as int < 0x10000 {
      UnitFirst(c as int, rest);
      UnitReads(c as int, rest);
    } else {
      var tail := Unit(LowHalf(c)) + rest;
      assert Escape(c) + rest == Unit(HighHalf(c)) + tail;
      UnitFirst(HighHalf(c), tail);
      PairReads(c, rest);
    }
  }

  lemma EscapeReads(c: char, rest: string)
    ensures Escape(c) != "" && Escape(c)[0] != '"'
    ensures ReadOne(Escape(c) + rest) == Some(One(c, |Escape(c)|))
  {
    var s := Escape(c) + rest;
    if Plain(c) {
      assert s[0] == c;
    } else if Short(c).Some? {
      assert s[0] == '\\' && s[1] == Short(c).value;
      ShortReads(c);
    } else {
      WideReads(c, rest);
    }
  }

  lemma OneMoreReads(c: char, tail: string, cut: Cut)
    requires ReadBody(tail) == Some(cut)
    ensures ReadBody(Escape(c) + tail) == Some(Cut([c] + cut.text, cut.rest))
  {
    var s := Escape(c) + tail;
    EscapeReads(c, tail);
    assert s[0] == Escape(c)[0] && s[|Escape(c)|..] == tail;
  }

  /** A written body with its closing quote and what follows it. */
  function Closed(t: string, rest: string): string {
    if t == "" then "\"" + rest else Escape(t[0]) + Closed(t[1..], rest)
  }

  lemma {:induction false} ClosedIsEscaped(t: string, rest: string)
    ensures Closed(t, rest) == EscapeAll(t) + "\"" + rest
  {
    if t != "" { ClosedIsEscaped(t[1..], rest); }
  }

  lemma {:induction false} BodyReads(t: string, rest: string)
    ensures ReadBody(Closed(t, rest)) == Some(Cut(t, rest))
  {
    if t != "" {
      BodyReads(t[1..], rest);
      OneMoreReads(t[0], Closed(t[1..], rest), Cut(t[1..], rest));
      assert t == [t[0]] + t[1..];
    }
  }

  lemma TextReads(t: string, rest: string)
    ensures ReadPart(WritePart(Some(t)) + rest) == Some(PartCut(Some(t), rest))
  {
    var s := WritePart(Some(t)) + rest;
    assert s[0] == '"' && "null"[0] == 'n';
    assert |s| >= 4 ==> s[..4][0] == '"';
    assert s[1..] == EscapeAll(t) + "\"" + rest;
    ClosedIsEscaped(t, rest);
    BodyReads(t, rest);
  }

  lemma PartReads(part: Option<string>, separator: char, rest: string)
    ensures ReadThen(WriteThen(part, separator, rest), separator) == Some(PartCut(part, rest))
  {
    var tail := [separator] + rest;
    var s := WriteThen(part, separator, rest);
    match part {
      case None => assert s[..4] == "null" && s[4..] == tail;
      case Some(t) => TextReads(t, tail);
    }
    assert tail[1..] == rest;
  }

  /** `from_compact` undoes `compact`, for every principal. */
  lemma CompactRoundTrip(p: Principal)
    ensures FromCompact(Compact(p)) == Some(p)
  {
    var three := WriteThen(p.subject, ']', "");
    var two := WriteThen(p.issuer, ',', three);
    var one := WriteThen(p.clientId, ',', two);
    assert Compact(p)[0] == '[' && Compact(p)[1..] == one;
    PartReads(p.clientId, ',', two);
    PartReads(p.issuer, ',', three);
    PartReads(p.subject, ']', "");
  }

  /** So no two principals share a compact text. */
  lemma CompactInjective(p: Principal, q: Principal)
    ensures Compact(p) == Compact(q) <==> p == q
  {
    CompactRoundTrip(p);
    CompactRoundTrip(q);
  }

  predicate AllPlain(t: string) {
    forall i | 0 <= i < |t| :: Plain(t[i])
  }

  predicate Ascii(s: string) {
    forall i | 0 <= i < |s| :: ' ' <= s[i] <= '~'
  }

  /** What each character is written as, in ASCII alone: itself if it is plain, the
      short escape if it has one, and otherwise its code units, each as four
      lower-case hexadecimal digits that write its value. */
  lemma EscapesExactly(c: char)
    ensures Plain(c) ==> Escape(c) == [c]
    ensures !Plain(c) ==> |Escape(c)| >= 2 && Escape(c)[0] == '\\'
    ensures |Escape(c)| == 2 <==>
      c == '"' || c == '\\' || c == '\n' || c == '\r' || c == '\t' || c as int == 8 || c as int == 12
    ensures |Escape(c)| == 12 <==> c as int >= 0x10000
    ensures !Plain(c) && |Escape(c)| != 2 && c as int < 0x10000 ==> IsUnit(Escape(c), c as int)
    ensures c as int >= 0x10000 ==>
      && IsUnit(Escape(c)[..6], 0xd800 + (c as int - 0x10000) / 0x400)
      && IsUnit(Escape(c)[6..], 0xdc00 + (c as int - 0x10000) % 0x400)
  {
    if !Plain(c) && Short(c).None? {
      if c as int < 0x10000 {
        UnitIsUnit(c as int);
      } else {
        UnitIsUnit(HighHalf(c));
        UnitIsUnit(LowHalf(c));
        assert Escape(c)[..6] == Unit(HighHalf(c)) && Escape(c)[6..] == Unit(LowHalf(c));
      }
    }
  }

  /** The letters of the short escapes. */
  lemma ShortEscapes()
    ensures Escape('"') == "\\\"" && Escape('\\') == "\\\\" && Escape('\n') == "\\n" && Escape('\r') == "\\r"
    ensures Escape('\t') == "\\t" && Escape(8 as char) == "\\b" && Escape(12 as char) == "\\f"
  {
  }

  lemma {:induction false} AsciiOnly(t: string)
    ensures Ascii(EscapeAll(t))
  {
    if t != "" {
      AsciiOnly(t[1..]);
      EscapesExactly(t[0]);
      EscapeIsAscii(t[0]);
    }
  }

  lemma EscapeIsAscii(c: char)
    ensures Ascii(Escape(c))
  {
    if !Plain(c) && Short(c).None? {
      if c as int < 0x10000 {
        UnitIsUnit(c as int);
      } else {
        UnitIsUnit(HighHalf(c));
        UnitIsUnit(LowHalf(c));
      }
    }
  }

  /** A backslash, a `u`, and the number in four lower-case digits. */
  predicate IsUnit(s: string, n: int) {
    && |s| == 6 && s[0] == '\\' && s[1] == 'u' && CodeUnit(s) == Some(n)
    && forall i | 2 <= i < 6 :: '0' <= s[i] <= '9' || 'a' <= s[i] <= 'f'
  }

  lemma UnitIsUnit(n: nat)
    requires n < 0x10000
    ensures IsUnit(Unit(n), n)
  {
    UnitReads(n, "");
    assert Unit(n) + "" == Unit(n);
  }

  lemma {:induction false} PlainTextStays(t: string)
    requires AllPlain(t)
    ensures EscapeAll(t) == t
  {
    if t != "" {
      PlainTextStays(t[1..]);
      EscapesExactly(t[0]);
      assert t == [t[0]] + t[1..];
    }
  }

  lemma Regroup(a: string, b: string, c: string)
    ensures "[" + (a + ([','] + (b + ([','] + (c + ([']'] + "")))))) == "[" + a + "," + b + "," + c + "]"
  {
    var tail := c + ([']'] + "");
    assert tail == c + "]";
    var middle := b + ([','] + tail);
    assert middle == b + "," + c + "]";
  }

  /** The text a policy is keyed by: three parts in brackets, without spaces. */
  lemma CompactText(p: Principal)
    ensures Compact(p) == "[" + WritePart(p.clientId) + "," + WritePart(p.issuer) + "," + WritePart(p.subject) + "]"
  {
    Regroup(WritePart(p.clientId), WritePart(p.issuer), WritePart(p.subject));
  }

  /** Each part is the word null, or the text between quotes. */
  lemma PartText(part: Option<string>)
    ensures part.None? ==> WritePart(part) == "null"
    ensures part.Some? && AllPlain(part.value) ==> WritePart(part) == "\"" + part.value + "\""
  {
    if part.Some? && AllPlain(part.value) { PlainTextStays(part.value); }
  }

  // ---- The two binders ----

  datatype IdentityBinding = Bound | Unbound | Unverified

  datatype Reason = NoPrincipalEvidence | PrincipalNotPermitted | NoPolicyForPrincipal | NoBinderInjected

  datatype ResponseBinding = ResponseBinding(
    binding: IdentityBinding, participantId: string, fingerprint: Option<string>, reason: Option<Reason>)

  /** The injected policy: yes, no, or no opinion. */
  type Policy = (Principal, string) -> Option<bool>

  /** `RequestIdentityBinder.evaluate`. */
  function Evaluate(policy: Policy, principal: Option<Principal>, participantId: string): ResponseBinding {
    if principal.None? || IsEmpty(principal.value) then
      ResponseBinding(Unverified, participantId, None, Some(NoPrincipalEvidence))
    else
      var fingerprint := Some(Compact(principal.value));
      match policy(principal.value, participantId)
      case Some(true) => ResponseBinding(Bound, participantId, fingerprint, None)
      case Some(false) => ResponseBinding(Unbound, participantId, fingerprint, Some(PrincipalNotPermitted))
      case None => ResponseBinding(Unbound, participantId, fingerprint, Some(NoPolicyForPrincipal))
  }

  /** What the request's binder answers, and why, for every policy. */
  lemma BindingsMean(policy: Policy, principal: Option<Principal>, participantId: string)
    ensures var b := Evaluate(policy, principal, participantId);
      var known := principal.Some? && !IsEmpty(principal.value);
      && b.participantId == participantId
      && (b.binding.Bound? <==> known && policy(principal.value, participantId) == Some(true))
      && (b.binding.Unverified? <==> !known) && (b.reason == Some(NoPrincipalEvidence) <==> !known)
      && (b.reason == Some(PrincipalNotPermitted) <==> known && policy(principal.value, participantId) == Some(false))
      && (b.reason == Some(NoPolicyForPrincipal) <==> known && policy(principal.value, participantId) == None)
      && (b.reason == None <==> b.binding.Bound?)
  {
  }

  /** A fingerprint is reported exactly for a principal that was checked, and two
      reports, whatever policies and claims they are about, carry the same one
      exactly when they are about the same principal. */
  lemma FingerprintNamesPrincipal(policy: Policy, other: Policy, p: Option<Principal>, q: Option<Principal>,
                                  participantId: string, otherId: string)
    ensures var a, b := Evaluate(policy, p, participantId), Evaluate(other, q, otherId);
      && (a.fingerprint.Some? <==> !a.binding.Unverified?)
      && (a.fingerprint.Some? ==> p.Some? && !IsEmpty(p.value))
      && (a.fingerprint.Some? && b.fingerprint.Some? ==> (a.fingerprint == b.fingerprint <==> p == q))
  {
    if p.Some? && q.Some? { CompactInjective(p.value, q.value); }
  }

  /** `StaticPermittedParticipants.permits`. */
  function StaticPermits(table: map<string, set<string>>): Policy {
    (principal: Principal, participantId: string) =>
      if Compact(principal) in table then Some(participantId in table[Compact(principal)]) else None
  }

  /** The legacy adapter takes a table keyed by the bare principal, or a
      predicate. */
  datatype Permitted = Table(table: map<string, set<string>>) | Test(permits: (string, string) -> bool)

  datatype Evidence = Evidence(
    binding: IdentityBinding, participantId: string, principal: Option<string>, reason: Option<Reason>)

  predicate LegacyPermits(permitted: Permitted, principal: string, participantId: string) {
    match permitted
    case Test(permits) => permits(principal, participantId)
    case Table(table) => principal in table && participantId in table[principal]
  }

  function RefusalReason(permitted: Permitted, principal: string): Reason {
    match permitted
    case Test(_) => PrincipalNotPermitted
    case Table(table) => if principal !in table then NoPolicyForPrincipal else PrincipalNotPermitted
  }

  /** `LegacySessionIdentityBinder.evidence`. */
  function SessionEvidence(permitted: Permitted, principal: Option<string>, participantId: string): Evidence {
    match principal
    case None => Evidence(Unverified, participantId, None, Some(NoPrincipalEvidence))
    case Some(p) =>
      if LegacyPermits(permitted, p, participantId) then Evidence(Bound, participantId, principal, None)
      else Evidence(Unbound, participantId, principal, Some(RefusalReason(permitted, p)))
  }

  /** `unverified_evidence`: nobody injected a binder. */
  function UnverifiedEvidence(participantId: string): Evidence {
    Evidence(Unverified, participantId, None, Some(NoBinderInjected))
  }

  /** What a legacy session's binder answers, and why; and what one gets without a
      binder, which is neither permission nor refusal. */
  lemma EvidenceMeans(permitted: Permitted, principal: Option<string>, participantId: string)
    ensures var e := SessionEvidence(permitted, principal, participantId);
      var allowed := principal.Some? && match permitted
        case Test(permits) => permits(principal.value, participantId)
        case Table(table) => principal.value in table && participantId in table[principal.value];
      && e.participantId == participantId && e.principal == principal
      && (e.binding.Bound? <==> allowed) && (e.binding.Unverified? <==> principal.None?)
      && (e.reason == Some(NoPrincipalEvidence) <==> principal.None?)
      && (e.reason == Some(NoPolicyForPrincipal) <==>
            principal.Some? && permitted.Table? && principal.value !in permitted.table)
      && (e.reason == Some(PrincipalNotPermitted) <==>
            principal.Some? && !allowed && (permitted.Table? ==> principal.value in permitted.table))
      && (e.reason == None <==> e.binding.Bound?)
    ensures var none := UnverifiedEvidence(participantId);
      none.binding.Unverified? && none.reason == Some(NoBinderInjected) && none.participantId == participantId
      && none.principal == None
  {
  }

  /** A static table permits exactly what it lists under the compact text, and tells
      a hole in it from a refusal. */
  lemma TablePermitsExactly(table: map<string, set<string>>, p: Principal, participantId: string)
    requires !IsEmpty(p)
    ensures var b := Evaluate(StaticPermits(table), Some(p), participantId);
      && (b.binding.Bound? <==> Compact(p) in table && participantId in table[Compact(p)])
      && (b.reason == Some(NoPolicyForPrincipal) <==> Compact(p) !in table)
      && b.fingerprint == Some(Compact(p))
  {
  }

  function AsPrincipal(name: string): Principal {
    Principal(Some(name), None, None)
  }

  /** The legacy table with every key replaced by its compact text. */
  function Rekey(table: map<string, set<string>>): map<string, set<string>> {
    KeysStayApart(table.Keys);
    map name | name in table :: Compact(AsPrincipal(name)) := table[name]
  }

  lemma KeysStayApart(names: set<string>)
    ensures forall a, b | a in names && b in names :: Compact(AsPrincipal(a)) == Compact(AsPrincipal(b)) ==> a == b
  {
    forall a, b | a in names && b in names
      ensures Compact(AsPrincipal(a)) == Compact(AsPrincipal(b)) ==> a == b
    {
      CompactInjective(AsPrincipal(a), AsPrincipal(b));
    }
  }

  /** What the two eras agree on, or fail to. */
  predicate Agree(current: ResponseBinding, legacy: Evidence) {
    && current.binding == legacy.binding && current.reason == legacy.reason
    && current.participantId == legacy.participantId
  }

  /** For every table, every claim and every principal the two eras give the same
      binding for the same reason, unless the principal is the empty string: the
      current binder takes that for no evidence, the legacy one for a principal. */
  lemma ErasAgree(table: map<string, set<string>>, principal: Option<string>, participantId: string)
    ensures Agree(
        Evaluate(StaticPermits(Rekey(table)), if principal.None? then None else Some(AsPrincipal(principal.value)), participantId),
        SessionEvidence(Table(table), principal, participantId))
      <==> principal != Some("")
  {
    if principal.Some? {
      var name := principal.value;
      RekeyedLookup(table, name);
    }
  }

  /** Looking a name up by its compact text in the rekeyed table. */
  lemma RekeyedLookup(table: map<string, set<string>>, name: string)
    ensures Compact(AsPrincipal(name)) in Rekey(table) <==> name in table
    ensures name in table ==> Rekey(table)[Compact(AsPrincipal(name))] == table[name]
  {
    forall other | other in table ensures Compact(AsPrincipal(other)) == Compact(AsPrincipal(name)) <==> other == name {
      CompactInjective(AsPrincipal(other), AsPrincipal(name));
    }
  }

  /** A predicate policy is carried over as it stands, with the same one exception. */
  lemma ErasAgreeOnPredicates(permits: (string, string) -> bool, principal: Option<string>, participantId: string)
    ensures Agree(
        Evaluate((p: Principal, who: string) => Some(p.clientId.Some? && permits(p.clientId.value, who)),
                 if principal.None? then None else Some(AsPrincipal(principal.value)), participantId),
        SessionEvidence(Test(permits), principal, participantId))
      <==> principal != Some("")
  {
  }

  /** `enforce`: only an authenticated principal without permission is an error. */
  predicate EnforceRaises(binding: ResponseBinding) {
    binding.binding.Unbound?
  }
}
